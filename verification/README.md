# Verified model of gokafka's core algorithms

gokafka is a Kafka client written in Go. This project models the parts of it
whose correctness is not visible from reading one function, and proves what
those parts are for:

- the zstd codec (RFC 8878): the two FSE table builders and their duality, the
  count header, the bit stack, the circular window and the overlapping match
  copy, the match finder and the repeat offsets, the Huffman table, the content
  checksum, and the composition of all of these for one block;
- the idempotent producer: one whole `ProduceSyncResult` call against brokers
  that may acknowledge, refuse, lose the request or lose the reply;
- the consume path: record batches as the producer prints them, the broker stamps
  them and the consumer reads them, the read_committed filter over the bytes of a
  response, and whole runs of polls;
- the group leader's assignors and the share consumer's acknowledgement ranges.

Every state-changing operation is a method proved against a specification
function or predicate; the theorems are lemmas about those, for all inputs and
all runs within the stated preconditions.

`dafny verify dfyconfig.toml` checks the whole project.

## Main results

| result | what it says |
|---|---|
| `FseSpread.WalkPermutation`, `FseTables.WalkBackAtZero` | the odd step visits every slot up to the threshold once, and the walk is back at slot 0 exactly when the counts have filled the table |
| `FseDuality.Duality`, `FseDuality.StreamRoundTrip` | encoder and decoder tables, built by different loops from one distribution, undo each other step by step and over whole messages |
| `FseReader.SlotCovers`, `FseDuality.DecodeDisjoint` | the decoder intervals of each symbol partition the states |
| `FseHeader.HeaderNormalised`, `FseHeader.ReadFse` | whatever the bytes, an accepted header yields counts that sum to exactly 2^accuracyLog |
| `FseHeaderWriter.HeaderRoundTrip`, `FseHeaderWriter.HeaderExists` | the header reader is the inverse of a writer for RFC 8878's format: every distribution is read back from its header |
| `FseReader.ReadTable` | any accepted bytes give a decoding table whose intervals partition the states of every symbol |
| `BitStack.StackRoundTrip`, `BitStack.WriteThenRead` | what is pushed forwards is popped backwards, to the last bit, on the stack and through the writer and reader |
| `Window.SaveAll`, `MatchCopy.BlockReader.CopyFromWindow` | the window is the last `size` bytes saved; the doubling copy is the byte-at-a-time copy |
| `Lz77.BuildSequences`, `Lz77.OffsetsAgree` | the loop computes the greedy parse of the input; replaying it rebuilds every input, with equal repeat offsets on both sides |
| `SequenceStream.BitsExact` | three interleaved FSE streams with extra bits decode to the sequences encoded if and only if every packed number but the last survives its masked write |
| `SequenceBlock.BlockRoundTrip`, `SequenceLoss.LossShows`, `SequenceWitness.LossHappens` | a compressed block decompresses to its input whenever its parse survives; with fewer than 32 literals and no earlier window, only then; and there are such blocks that do not |
| `Huffman.RunsTile`, `Huffman.PrefixFree`, `Huffman.BuildTable` | accepted weights give a complete prefix code, and the table is its lookup |
| `ProduceCall.ProduceSync` | exactly-once over a whole call, for every script of faults; one attempt without faults after any number of retriable ones completes the call |
| `ReadCommitted.FilterExact`, `ReadCommitted.SegmentExact` | the one-pass filter shows exactly what the log-level definition of "aborted" allows |
| `ProducedBatch.ProducedRoundTrip`, `RecordPayload.PayloadRoundTrip` | whatever the broker stamps on it, a produced batch is fetched with all its records exactly when every number fits 29 bits, and is an error otherwise |
| `CommittedBytes.CommittedRecords` | the bytes of any segment of a log of produced batches and markers decode to the producers' own records, less those of aborted transactions |
| `ConsumerPoll.RunExact`, `ConsumerPoll.PollExact` | no record lost or delivered twice over any run of polls answered from the cursor; a seek is never overwritten |
| `ConsumerBatches.RunWholeExact`, `ConsumerBatches.TakenAgainIff`, `ConsumerBatches.StuckIff` | with brokers that answer with whole batches nothing is lost, an entry is taken again if and only if the cursor lies inside a batch, and the cursor stops if and only if what is taken again fills a poll |
| `GroupAssignment.ComputeGroupAssignments`, `GroupAssignment.DueValid` | complete, balanced, independent of map iteration order |
| `Assignors.Assignment.AssignSticky` | the greedy choice is round robin |
| `AckRanges.CoalesceAckBatches` | exact cover by the fewest ranges possible |
| `XxHash.HashChunks` | the digest does not depend on how the input was cut |

## Properties that do not hold, and when they do

- A block with 32 or more literals does not survive: the longer literals headers
  put the size format where the reader does not look
  (`SequenceBlock.LiteralsRoundTrip` is an if-and-only-if on `|literals| < 32`).
- Packed extra bits wider than 31 are cut by the mask table. A number survives if
  and only if it is narrow or small enough (`BitStack.MaskedExact`), a stream
  decodes to its sequences if and only if all of them do
  (`SequenceStream.BitsExact`), and a block without an earlier window to its input
  likewise (`SequenceBlock.BlockRoundTrip`). `SequenceStream.LostSequence` is a
  sequence that is lost, and `SequenceWitness.LossHappens` a family of blocks with
  27 literals that do not decompress to their input.
- The 32-bit word of the backward reader loses the bits at hand when a number is
  so wide that the byte completing it no longer fits. Numbers of up to 25 bits are
  always taken as written; for wider ones `BitStack.TakenExact` has the exact
  condition, and `BitStack.TopBitLost` is a stream where offset code 26 comes out
  wrong. `BitStack.LoadExact` is the condition for one byte.
- The check for data left over after the sequences sees only part of a byte:
  whole bytes in front of an accepted stream change nothing
  (`SequenceLeftOver.LeftOverUnnoticed`).
- Varints of 2^29 and above are written and never read back
  (`Wire.VarintRoundTrip`, an if-and-only-if).
- After a call that failed, the producer's sequence may be behind the broker's:
  the client is in step if and only if no partition's log grew without an
  acknowledgement (`ProduceCall.ProduceSync`). `ProduceBroker.AppendedIff` says
  exactly when a delivered batch is appended and acknowledged, and
  `ProduceBroker.StaleSequence` shows a later batch of the same length being
  acknowledged without being appended.
- A broker answers with whole batches and no code drops the records below the
  cursor. An entry is taken again if and only if the cursor lies inside a batch
  (`ConsumerBatches.TakenAgainIff`), and a run delivers each record once if and only
  if no poll delivers one from below its cursor (`ConsumerBatches.RunWholeExact`).
  A cursor does not move at all if and only if the part of its batch below it holds
  as many records as a poll may deliver (`ConsumerBatches.StuckIff`), and then never
  again (`ConsumerBatches.StuckForever`, and `ConsumerBatches.TwoRecords` at a batch
  of two records read one at a time).
- The clock is read once for the batch header and once for the records. A time
  that was set on a record arrives unchanged if and only if the first record has a
  time, or none has, or both readings are equal (`ProducedBatch.TimesArriveIff`,
  and `ProducedBatch.TimeMoved` at two records).
- A batch whose records take fewer than four bytes is skipped without an error
  (`RecordBatch.BatchRoundTrip`), and one of 2^32 bytes or more is not cut out whole
  (`CommittedBytes.FrameIff`).
- A transaction that no marker has ended yet is shown to a committed reader
  (`ReadCommitted.UndecidedShown`, and `ReadCommitted.OpenTransactionShown` at one
  log): the filter drops a batch if and only if an abort marker ends its
  transaction.

## Model

| member | source | states |
|---|---|---|
| `FseSpread.StepOdd` | internal/compress/zstd/fse_enc.go:72-74 | the step T/2+T/8+3 is odd for T = 2^k, k >= 5 |
| `FseSpread.VisitInjective` | internal/compress/zstd/fse.go:173-186 | the first T positions of the walk are pairwise different |
| `FseSpread.VisitSurjective` | internal/compress/zstd/fse.go:173-186 | every position below T is visited within T steps |
| `FseSpread.WalkPermutation` | internal/compress/zstd/fse.go:172-186 | the walk with skips visits the slots 0..high each exactly once |
| `FseNorm.SpreadUnique` | internal/compress/zstd/fse_enc.go:124-136 | a distribution has only one spread table, so both builders agree on it |
| `FseNorm.SpreadHistogram` | internal/compress/zstd/fse.go:172-186 | each symbol holds exactly as many slots as its count, -1 counted as 1 |
| `FseTables.WalkBackAtZero` | internal/compress/zstd/fse_enc.go:137-139 | the position is 0 after n placements exactly when n is a multiple of the number of slots |
| `FseTables.Advance` | internal/compress/zstd/fse_enc.go:131-134 | the inner skip loop terminates at the next slot of the walk |
| `FseTables.SpreadWalk` | internal/compress/zstd/fse_enc.go:124-139 | the loops put symbol j of the distribution on stop j of the walk and leave the slots above the threshold alone |
| `FseTables.BuildFse` | internal/compress/zstd/fse.go:156-205 | for every normalised distribution both error returns are dead and the table is the decoding table of the unique spread |
| `FseTables.FseEncoder.BuildCTable` | internal/compress/zstd/fse_enc.go:92-171 | succeeds if and only if the counts add up to the table size, and then state table and symbol transforms are those of the spread |
| `FseDuality.BitsOutFor` | internal/compress/zstd/fse_enc.go:152-166 | the 16.16 fixed-point delta gives a width for which the shifted state lies in [count, 2*count) |
| `FseDuality.Duality` | internal/compress/zstd/fse_enc.go:204-209 | from every state and occurring symbol the encoder moves to a slot whose decoder entry has that symbol, reads the bits emitted, and returns to the old state |
| `FseDuality.InverseHolds` | internal/compress/zstd/fse_enc.go:185-192 | duality for every state and symbol, and the initial state is a slot of its symbol |
| `FseDuality.BuildersPaired` | internal/compress/zstd/fse.go:156-205 | tables from the two builders belong to one spread |
| `FseDuality.DecodeDisjoint` | internal/compress/zstd/fse.go:188-202 | intervals of two slots of one symbol do not meet |
| `FseDuality.StreamRoundTrip` | internal/compress/zstd/fse_enc.go:199-237 | decoding the final state and the bit chunks returns any non-empty message and uses every chunk |
| `FseHeader.CountCodeRange` | internal/compress/zstd/fse.go:99-117 | a count never exceeds what remains, and its width is the needed bits or one less |
| `FseHeader.ParseCountsConserves` | internal/compress/zstd/fse.go:54-133 | remaining plus the counts read so far is constant |
| `FseHeader.HeaderNormalised` | internal/compress/zstd/fse.go:24-151 | an accepted header holds counts that sum to exactly 2^accuracyLog, one per symbol |
| `FseHeader.FastRun` | internal/compress/zstd/fse.go:65-72 | reading twelve one-bits at once equals six two-bit repeat flags |
| `FseHeader.BitReader.MoreBits` | internal/compress/zstd/bits.go:36-47 | at least 16 bits are at hand afterwards and the position is unchanged, or the data is at its end |
| `FseHeader.ReadZeroRun` | internal/compress/zstd/fse.go:60-84 | the two loops of the fast and slow flags compute the run of zeros |
| `FseHeader.ReadCount` | internal/compress/zstd/fse.go:99-117 | small and large values decode to the count code of the grammar |
| `FseHeader.ShrinkThreshold` | internal/compress/zstd/fse.go:129-132 | the loop ends with threshold <= remaining < 2*threshold |
| `FseHeader.ReadCounts` | internal/compress/zstd/fse.go:54-133 | the loop computes the grammar's counts, remaining and position, or its error |
| `FseHeader.ReadFse` | internal/compress/zstd/fse.go:24-151 | the reader is the header grammar, for every input and every error |
| `FseReader.SlotCovers` | internal/compress/zstd/fse.go:188-202 | every state is in the interval of some slot of every symbol that occurs, from the decoding table alone |
| `FseReader.TablePartitions` | internal/compress/zstd/fse.go:188-202 | from every symbol that occurs, every state is reached in exactly one way |
| `FseReader.ReadTable` | internal/compress/zstd/fse.go:24-151 | the header or its error; whatever bytes are accepted, the table is built and its entries partition the states |
| `FseHeaderWriter.CountCodeExact` | internal/compress/zstd/fse.go:99-117 | a value is decoded if and only if the bits are its code, for every value up to what remains |
| `FseHeaderWriter.FlagsExact` | internal/compress/zstd/fse.go:60-84 | the repeat flags of a run of zeros are read back as that run |
| `FseHeaderWriter.CountsRoundTrip` | internal/compress/zstd/fse.go:54-133 | written counts are read back up to the place where the probability is used up |
| `FseHeaderWriter.HeaderRoundTrip` | internal/compress/zstd/fse.go:24-151 | every normalised distribution is returned from its header, and the reader ends at the byte behind it |
| `FseHeaderWriter.HeaderExists` | internal/compress/zstd/fse.go:24-151 | for every normalised distribution there are bytes from which the reader returns it |
| `BitStack.PopPush` | internal/compress/zstd/bitwriter.go:32-40 | popping returns the value pushed last and the stack below it |
| `BitStack.StackRoundTrip` | internal/compress/zstd/bits.go:100-125 | on the stack, any list of values comes back in reverse order with nothing left |
| `BitStack.WriteThenRead` | internal/compress/zstd/bitwriter.go:26-73 | through the writer and the reader, any list of numbers of at most 25 bits comes back in reverse order and no bit is left |
| `BitStack.BitWriter.AddBits` | internal/compress/zstd/bitwriter.go:32-40 | pushes what the mask table keeps of the value, in the full width, for every width below 64 |
| `BitStack.MaskedExact` | internal/compress/zstd/bitwriter.go:37-40 | a masked write keeps its value if and only if it is at most 31 bits wide or small enough |
| `BitStack.BitWriter.Flush32` | internal/compress/zstd/bitwriter.go:47-59 | moves four bytes out without changing the stack |
| `BitStack.BitWriter.FlushAlign` | internal/compress/zstd/bitwriter.go:61-68 | the bytes are the stack's value, in as few bytes as it needs |
| `BitStack.BitWriter.Close` | internal/compress/zstd/bitwriter.go:70-73 | the bytes are the stack's value with a marker bit above it |
| `BitStack.OpenClosed` | internal/compress/zstd/bits.go:83-97 | opening a closed stream gives the stack back |
| `BitStack.ReverseBitReader.constructor` | internal/compress/zstd/bits.go:83-97 | the reader starts with the bits below the marker |
| `BitStack.ReverseBitReader.Fetch` | internal/compress/zstd/bits.go:113-125 | succeeds if and only if enough bits are left; for up to 32 bits it keeps them all if and only if the condition of `TakenExact` holds |
| `BitStack.ReverseBitReader.Val` | internal/compress/zstd/bits.go:100-108 | fails if and only if there are too few bits; otherwise takes exactly what the word has kept of the top bits, and leaves the rest of the stack, for every width up to 32 |
| `BitStack.TakenExact` | internal/compress/zstd/bits.go:100-125 | the value taken is the one written if and only if the number is at most 24 bits wider than the bits at hand, or those are zeros, or there are none |
| `BitStack.TopBitLost` | internal/compress/zstd/bits.go:113-125 | a stream in which offset code 26, read with one bit at hand, yields 0 in place of 2^25 |
| `BitStack.LoadExact` | internal/compress/zstd/bits.go:119-122 | a byte load keeps the bits at hand if and only if they number at most 24 or those above the 24th are zeros |
| `Window.CircularWindow.Save` | internal/compress/zstd/window.go:37-69 | the contents become the last `size` bytes of contents and input, in every case of the wrap-around |
| `Window.CircularWindow.AppendTo` | internal/compress/zstd/window.go:73-94 | appends the asked part of the contents, across the seam or not |
| `Window.LastOfLast` | internal/compress/zstd/window.go:37-69 | keeping only the last n bytes between saves loses nothing |
| `Window.SaveAll` | internal/compress/zstd/window.go:37-69 | after any run of saves the window is the last `size` bytes of all of it |
| `MatchCopy.RepeatsIsNaive` | internal/compress/zstd/block.go:415-423 | a byte-at-a-time copy is the only extension that repeats with the offset as period |
| `MatchCopy.DoublingStep` | internal/compress/zstd/block.go:417-423 | copying everything from the start of the period on keeps the period |
| `MatchCopy.ExtendPeriod` | internal/compress/zstd/block.go:415-423 | the doubling loop ends, with the requested length and the period kept |
| `MatchCopy.BlockReader.CopyFromWindow` | internal/compress/zstd/block.go:386-425 | equals the naive copy over window and block for every reachable offset; an error, and no change, for exactly the others |
| `SequenceCodes.LlRoundTrip` | internal/compress/zstd/seq.go:59-65 | code, baseline and extra bits give the literal length back, and the code is in range if and only if the length is below 2^17 |
| `SequenceCodes.MlRoundTrip` | internal/compress/zstd/seq.go:67-73 | the same for match lengths |
| `SequenceCodes.OfRoundTrip` | internal/compress/zstd/seq.go:75-77 | the same for offset values, including the three repeat values, with codes in range if and only if the value is below 2^32 |
| `SequenceReader.OffsetRule` | internal/compress/zstd/block.go:302-330 | baselines with three taken off and a test on the code's width give the same offset and recent offsets as the rules on the offset value |
| `Lz77.OffsetsAgree` | internal/compress/zstd/seq.go:90-120 | the decoder's rules return the encoder's offset and the same three recent offsets |
| `Lz77.FindMatch` | internal/compress/zstd/encode.go:135-157 | the longest match within reach, the nearest among equals, or none if none is long enough |
| `Lz77.BestUnique` | internal/compress/zstd/encode.go:135-157 | offset and length of the best match are determined by the input |
| `Lz77.BuildSequences` | internal/compress/zstd/encode.go:159-188 | the result is the greedy parse of the input; replaying it rebuilds the input behind any window and ends with the encoder's recent offsets; there are no sequences if and only if no position has a match |
| `SequenceStream.OneRoundTrip` | internal/compress/zstd/block.go:281-300 | the packed extra bits of one sequence are read back as offset, match and literal length |
| `SequenceStream.StatesRoundTrip` | internal/compress/zstd/fse_enc.go:199-237 | from the encoder's final states the decoder returns every sequence, as its masked write leaves it, and the empty stack |
| `SequenceStream.SeenOneExact` | internal/compress/zstd/fse_enc.go:211-236 | a sequence comes back as it was if and only if its packed number survives the masked write |
| `SequenceStream.BitsRoundTrip` | internal/compress/zstd/fse_enc.go:239-292 | the whole stream, with the flushed states, decodes to the sequences as the masked writes leave them |
| `SequenceStream.BitsExact` | internal/compress/zstd/fse_enc.go:239-292 | the stream decodes to the sequences if and only if every packed number but the last survives |
| `SequenceStream.LostSequence` | internal/compress/zstd/fse_enc.go:235-236 | 65536 literals, a match of 32774 and offset value 65536 come back with a match of 32771 |
| `SequenceWriter.WriteSequences` | internal/compress/zstd/fse_enc.go:258-291 | the writer's bytes are the closed stack of the functional encoder, with packed writes of any width a block can have |
| `SequenceReader.ExecSequence` | internal/compress/zstd/block.go:302-376 | one sequence does what the replay rules say, including the errors |
| `SequenceReader.NeverWide` | internal/compress/zstd/block.go:271-345 | with accepted tables the loop never meets a code or a state outside them |
| `SequenceReader.ExecSeqs` | internal/compress/zstd/block.go:249-383 | succeeds if and only if there are enough bits, the sequences execute and no part of a byte is left, and then the output and recent offsets are those of the execution; for every stream and every offset code |
| `SequenceLeftOver.LeftOverUnnoticed` | internal/compress/zstd/block.go:378-380 | whole bytes in front of an accepted stream leave sequences, output and acceptance unchanged, and are what is left |
| `SequenceBlock.LlPredefined` | internal/compress/zstd/fse_enc.go:45-47 | the literal-length distribution is normalised to 64 with every code present |
| `SequenceBlock.OfPredefined` | internal/compress/zstd/fse_enc.go:48-49 | the offset distribution is normalised to 32 |
| `SequenceBlock.MlPredefined` | internal/compress/zstd/fse_enc.go:50-53 | the match-length distribution is normalised to 64 |
| `SequenceBlock.BuildCoder` | internal/compress/zstd/fse_enc.go:58-68 | both builders succeed on a normalised distribution and their tables undo each other |
| `SequenceBlock.PredefinedCodable` | internal/compress/zstd/encode.go:174-180 | every sequence the match finder makes from a block has codes in the predefined tables |
| `SequenceBlock.LiteralsRoundTrip` | internal/compress/zstd/fse_enc.go:294-307 | the literals section is read back if and only if there are fewer than 32 literals |
| `SequenceBlock.CountRoundTrip` | internal/compress/zstd/block.go:111-143 | the sequence count is read back in all three header forms |
| `SequenceBlock.BlockRoomy` | internal/compress/zstd/fse_enc.go:199-237 | the sequences of one block never overflow the 64-bit container |
| `SequenceBlock.EncodeBody` | internal/compress/zstd/encode.go:116-133 | literals, count and bit stream stand where the decoder looks |
| `SequenceBlock.DecodeBody` | internal/compress/zstd/block.go:17-60 | without sequences the block is its literals and nothing may follow; with sequences it is what their stream does, from any recent offsets, both directions |
| `SequenceLoss.SeenSmaller` | internal/compress/zstd/fse_enc.go:211-236 | a masked write never makes a literal length, match length or offset larger |
| `SequenceLoss.OnlyOne` | internal/compress/zstd/encode.go:135-157 | no smaller sequence with the same match length writes the input in the place of the encoder's |
| `SequenceLoss.LossShows` | internal/compress/zstd/encode.go:116-188 | with fewer than 32 literals, no window and a packed number that is lost, the replay never rebuilds the input |
| `SequenceWitness.ParseOfInput` | internal/compress/zstd/encode.go:159-188 | the exact parse of two long runs of zeros around 25 new bytes: 27 literals and three sequences |
| `SequenceWitness.LossHappens` | internal/compress/zstd/encode.go:116-188 | each such block has fewer than 32 literals and a packed number that is lost, and is not rebuilt |
| `SequenceBlock.BlockRoundTrip` | internal/compress/zstd/encode.go:116-188 | there is a compressed block if and only if the input's parse has sequences; with fewer than 32 literals its decompression is the replay of the sequences as written; it is the input whenever the parse survives, and without a window only then |
| `Huffman.RunsTile` | internal/compress/zstd/huff.go:177-201 | every table entry is in exactly one symbol's run |
| `Huffman.RunsDisjoint` | internal/compress/zstd/huff.go:177-201 | runs of two symbols do not meet |
| `Huffman.BaseAligned` | internal/compress/zstd/huff.go:180-185 | the first entry of each weight class is a multiple of its run length |
| `Huffman.LookupIsPrefix` | internal/compress/zstd/huff.go:187-201 | an index is in a run if and only if its leading bits are the symbol's code |
| `Huffman.PrefixFree` | internal/compress/zstd/huff.go:187-201 | no code is the beginning of another |
| `Huffman.AcceptedIsComplete` | internal/compress/zstd/huff.go:135-175 | weights that pass the checks, with the computed last one, sum to a power of two |
| `Huffman.FirstEntries` | internal/compress/zstd/huff.go:180-185 | counts become the first entry of each weight class |
| `Huffman.FillRuns` | internal/compress/zstd/huff.go:187-201 | every symbol's run holds the symbol and its code length |
| `Huffman.BuildTable` | internal/compress/zstd/huff.go:135-203 | accepts exactly the weight lists that pass the checks, and then fills the table of the complete code |
| `XxHash.Absorb` | internal/compress/zstd/xxhash.go:49-80 | hashing b on top of the stripes and tail of a is hashing a followed by b |
| `XxHash.TailLength` | internal/compress/zstd/xxhash.go:100-101 | the low five bits of the length are the number of buffered bytes |
| `XxHash.XxHash64.Reset` | internal/compress/zstd/xxhash.go:30-46 | the state of the empty input, whatever was hashed before |
| `XxHash.XxHash64.Update` | internal/compress/zstd/xxhash.go:49-80 | the state of the data so far becomes the state of that data with the input behind it |
| `XxHash.XxHash64.Sum` | internal/compress/zstd/xxhash.go:83-130 | the digest is that of the whole input and looks at no stale buffer byte |
| `XxHash.HashChunks` | internal/compress/zstd/xxhash.go:49-130 | for every cutting into chunks the digest is that of the concatenation |
| `ProduceBroker.AttemptKeeps` | producer.go:404-459 | whatever becomes of a batch, its partition stays untouched, appended unnoticed, or appended and acknowledged at the right offset |
| `ProduceBroker.ExactlyOnce` | producer.go:60-121 | in each of those states no record is in the log twice, and an acknowledged batch stands where reported |
| `ProduceBroker.AppendedIff` | internal/produce/state.go:56-64 | a delivered batch is appended and acknowledged if and only if client and broker are in step |
| `ProduceBroker.StaleSequence` | internal/produce/state.go:56-64 | after a lost reply and a rollback, the next batch of equal length is acknowledged and not appended |
| `IdempotentProduce.SequenceState.ReserveBlock` | internal/produce/state.go:46-53 | returns the sequence and moves it by the count |
| `IdempotentProduce.SequenceState.RollbackBlock` | internal/produce/state.go:56-64 | moves it back, not below zero |
| `IdempotentProduce.ReserveRollback` | internal/produce/state.go:46-64 | reserving and rolling back leaves every sequence as it was |
| `IdempotentProduce.GroupByKey` | producer.go:278-295 | each partition gets the indices of its records, in input order |
| `IdempotentProduce.SendAll` | producer.go:349-388 | every partition's batch is attempted once, results are written for acknowledged ones only, failures are collected |
| `IdempotentProduce.SendRecords` | producer.go:277-394 | every partition is attempted from its own sequence; only failed ones are rolled back; no error if and only if all are acknowledged; a fatal error wins |
| `ProduceCall.PendingRecords` | producer.go:125-135 | the unacknowledged records and their places |
| `ProduceCall.MergeAcked` | producer.go:140-147 | acknowledged results go to their original places, everything else stays |
| `ProduceCall.PendingPositions` | producer.go:125-135 | a partition without acknowledgements is sent again with all its records in order |
| `ProduceCall.FreezePartitions` | producer.go:531-544 | explicit partitions are kept, others chosen once; fails if and only if one cannot be resolved |
| `ProduceCall.CallStep` | producer.go:99-101 | an attempt on the pending records keeps every partition in one of its three states |
| `ProduceCall.NoWorseThanFates` | producer.go:412-459 | an attempt fails only where its fate is a failure, and fatally only where its fate is fatal |
| `ProduceCall.SendPending` | producer.go:99-101 | the attempt and the merge keep the states and the results in step; no error if and only if every partition is acknowledged |
| `ProduceCall.TryOnce` | producer.go:78-119 | partitions are frozen once and never again; acknowledged partitions stay so |
| `ProduceCall.CallOutcome` | producer.go:60-121 | the loop's invariant gives: no duplicates, one partition per record, reported offsets right, input order |
| `ProduceCall.StepAfter` | internal/produce/state.go:46-64 | client and brokers are in step if and only if no partition's log grew without an acknowledgement |
| `ProduceCall.ProduceSync` | producer.go:60-121 | the same for every call and every script of faults; only this call's records are new in any log; success if and only if every record is reported, and then every sequence equals the broker's; after any outcome every partition is in step if and only if none was extended without an acknowledgement; a faultless attempt after retriable ones gives success |
| `ReadCommitted.DropsAborted` | internal/protocol/fetch.go:448-450 | a transactional batch is dropped if and only if an abort marker ends its transaction |
| `ReadCommitted.StreamIsVisible` | internal/protocol/fetch.go:417-457 | from any point of the pass on, the filter shows what the log-level definition allows |
| `ReadCommitted.FilterExact` | internal/protocol/fetch.go:412-457 | for every log, every range of it and every list that names the aborted transactions with data in that range, the output is exactly the visible items, one marker per dropped or control batch |
| `ReadCommitted.UndecidedShown` | internal/protocol/fetch.go:444-454 | the records of a transaction without an end marker are shown in their place |
| `ReadCommitted.OpenTransactionShown` | internal/protocol/fetch.go:444-454 | one open transaction and an empty list, for which the filter shows the record |
| `ReadCommitted.Activate` | internal/protocol/fetch.go:437-443 | the loop takes up exactly the entries that start no later than the batch |
| `ReadCommitted.DecodeRecordBatch` | internal/protocol/fetch.go:417-457 | the loop over the bytes is the filter over the batches they hold; a batch that does not decode is an error |
| `ReadCommitted.BatchesFramed` | internal/protocol/fetch.go:421-434 | whole batches are all found, a truncated last one is left alone |
| `ReadCommitted.SegmentExact` | internal/protocol/fetch.go:417-457 | the bytes of any segment of a log decode to exactly what a committed reader may see |
| `BigEndian.AsIntIff` | internal/wire/buffer.go:238-254 | a number keeps its value in n bytes if and only if it fits them |
| `Wire.IntAtRoundTrip` | internal/wire/buffer.go:33-67 | a written integer is read back as its n-byte conversion |
| `RecordBatch.DecodeOneRecordBatch` | internal/protocol/fetch.go:470-560 | the reads one after the other find each field at its place of the layout, with the checks in the source's order |
| `RecordBatch.BatchRoundTrip` | internal/protocol/fetch.go:470-560 | any printed batch passes the magic and checksum checks and gives back its fields and records; it is skipped if and only if the records take fewer than four bytes; control batches are not parsed |
| `RecordBatch.StampedIs` | internal/protocol/produce.go:166-195 | another base offset and leader epoch in a printed batch leave its checksum right |
| `ProducedBatch.LatestIs` | internal/protocol/produce.go:136-146 | the batch's latest time is no earlier than any record's, and is one of them |
| `ProducedBatch.EncodeRecordBatch` | internal/protocol/produce.go:128-196 | placeholders filled in afterwards give the printed batch; an empty list or a failing codec is an error; compressed only if shorter |
| `ProducedBatch.ProducedRoundTrip` | internal/protocol/produce.go:128-196 | for every list of records, settings, clock readings and broker stamp: the records are fetched in order with consecutive offsets if and only if their numbers fit 29 bits, an error otherwise, and skipped below four bytes |
| `ProducedBatch.TimesArriveIff` | internal/protocol/produce.go:132-136 | times set on records arrive unchanged if and only if the first record has one, none has, or the two clock readings agree |
| `ProducedBatch.TimeMoved` | internal/protocol/produce.go:198-214 | two records and two readings for which a time arrives two milliseconds early |
| `ProducedBatch.PayloadLong` | internal/protocol/produce.go:198-223 | uncompressed records take at least seven bytes, so they are never skipped |
| `CommittedBytes.FrameIff` | internal/protocol/produce.go:190-192 | a batch is cut out of a response whole if and only if its length fits 32 bits |
| `CommittedBytes.CommittedRecords` | internal/protocol/fetch.go:417-457 | for every log of produced batches and markers and every fitting list of aborted transactions, the bytes of a segment decode to the producers' records less the aborted ones |
| `Wire.ReadFromExact` | internal/wire/buffer.go:184-203 | a written number is read back if and only if it fits the bits left to read |
| `Wire.VarintRoundTrip` | internal/wire/buffer.go:205-211 | a signed number is read back if and only if it is in [-2^28, 2^28) |
| `Wire.Buffer.WriteUvarint` | internal/wire/buffer.go:336-342 | appends the seven-bit groups of the number |
| `Wire.Buffer.ReadUvarint` | internal/wire/buffer.go:184-203 | the loop reads the number of the grammar, or fails with it |
| `RecordPayload.RecordRoundTrip` | internal/protocol/fetch.go:579-663 | a printed record is parsed back if and only if its numbers fit, and is an error otherwise |
| `RecordPayload.PayloadRoundTrip` | internal/protocol/produce.go:198-223 | the same for every non-empty list, with consecutive offsets and times off by the difference of the base times |
| `RecordPayload.ExpectedAt` | internal/protocol/fetch.go:659-662 | record j comes back at offset base + j with its own key, value and headers, and its time but for the shift |
| `RecordCodec.VarintLen` | internal/protocol/produce.go:262-270 | the number of bytes the writer writes |
| `RecordCodec.RecordBodyLen` | internal/protocol/produce.go:247-259 | the size of a body before it is printed |
| `RecordCodec.AppendRecord` | internal/protocol/produce.go:227-243 | appends the record's bytes, with the right length in front |
| `RecordCodec.EncodeRecordsPayload` | internal/protocol/produce.go:198-223 | the bytes of all records, and the size computed in the first pass is their number |
| `RecordCodec.NextRecord` | internal/protocol/fetch.go:579-663 | one turn of the loop is one step of the grammar, including stops, skips and errors |
| `RecordCodec.ParseRecords` | internal/protocol/fetch.go:562-665 | the loop computes the grammar's records or its error, for every input |
| `ConsumerPoll.CapItems` | consumer.go:249-267 | items up to the one that reaches the cap |
| `ConsumerPoll.AggregateFetches` | consumer.go:153-173 | one cut over all nodes; cursors are behind the last item delivered of each partition |
| `ConsumerPoll.CursorIs` | consumer.go:163-164 | a partition has a cursor if and only if an item of it was delivered, and it is behind the last one |
| `ConsumerPoll.TakeCounts` | consumer.go:165-171 | at most maxPoll records, and fewer only if everything was delivered |
| `ConsumerPoll.Consumer.Seek` | offset.go:17-28 | repositions exactly the named partition |
| `ConsumerPoll.Consumer.AdvanceDelivered` | consumer.go:181-201 | moves a cursor only if it still is where the fetch was issued from, and only forward |
| `ConsumerPoll.Consumer.PollOnce` | consumer.go:38-139 | a poll's records and new cursors, with seeks in between |
| `ConsumerPoll.PollExact` | consumer.go:181-201 | the history stays the log's data up to the cursor; a seek to another offset stands |
| `ConsumerPoll.PollAdvances` | consumer.go:153-201 | without a seek a cursor moves forward if and only if an item of its partition, record or marker, was consumed |
| `ConsumerPoll.FirstConsumed` | consumer.go:153-173 | whatever is fetched, its first item is consumed |
| `ConsumerPoll.RunExact` | consumer.go:38-201 | over any run of polls, each partition answered by whichever node leads it at the time, the records delivered of a partition are exactly its log's data between the first and the last cursor |
| `ConsumerBatches.WholePoll` | consumer.go:153-201 | the run consumed from the batch start on, and a cursor that is the further of where it was and behind that run |
| `ConsumerBatches.TakenAgainIff` | consumer.go:249-267 | a poll takes an entry below the cursor if and only if it takes one at all and the cursor lies inside a batch |
| `ConsumerBatches.WholeDelivers` | consumer.go:153-201 | what is delivered is the part from below the cursor and then the log's data up to the new one |
| `ConsumerBatches.RunWholeExact` | consumer.go:38-201 | over any run of polls every record between the first and the last cursor is delivered, and each exactly once if and only if no poll delivers one from below its cursor |
| `ConsumerBatches.BoundariesExact` | consumer.go:38-201 | if the cursor is at a batch boundary before every poll, the run is exact |
| `ConsumerBatches.StuckIff` | consumer.go:181-201 | short of the log's end a cursor does not move if and only if its batch holds as many records below it as a poll may deliver |
| `ConsumerBatches.StuckForever` | consumer.go:38-201 | such a cursor stays under any number of polls, each delivering the same records |
| `ConsumerBatches.TwoRecords` | consumer.go:38-201 | a batch of two records read one at a time delivers the first one without end |
| `Shares.RoundRobinValid` | internal/protocol/group_assign.go:124-137 | the shares hold every partition exactly once and differ by at most one |
| `Shares.RangeValid` | internal/protocol/group_assign.go:102-122 | the same for ranges |
| `Assignors.Assignment.AppendTopicParts` | internal/protocol/group_assign.go:178-189 | adds to one member's share of one topic and changes nothing else |
| `Assignors.Assignment.AssignRange` | internal/protocol/group_assign.go:102-122 | every member gets its range of the topic |
| `Assignors.Assignment.AssignRoundRobin` | internal/protocol/group_assign.go:124-137 | every member gets each n-th partition |
| `Assignors.Assignment.AssignSticky` | internal/protocol/group_assign.go:140-155 | the greedy assignment gives exactly the round-robin shares |
| `Assignors.StickyPickMember` | internal/protocol/group_assign.go:166-176 | a least loaded member, the smallest id among several |
| `Assignors.GreedyIsTurn` | internal/protocol/group_assign.go:166-176 | the least loaded member is the one whose turn it is |
| `GroupAssignment.MidsOfSorted` | internal/protocol/group_assign.go:60-76 | the members of a topic do not depend on the order in which members are listed |
| `GroupAssignment.DueValid` | internal/protocol/group_assign.go:56-100 | what is due covers every partition once, is balanced, and nothing is due to members that do not subscribe |
| `GroupAssignment.ComputeGroupAssignments` | internal/protocol/group_assign.go:56-100 | for every iteration order of the topics each member gets exactly what is due, and every member is listed |
| `AckRanges.Fewest` | share_consumer.go:551-567 | separated ranges that cover exactly the offsets are as few as any exact cover |
| `AckRanges.CoalesceAckBatches` | share_consumer.go:551-567 | ascending, never adjacent, covering exactly the offsets, fewest possible |

## Choices of the model

- Where code and documentation disagree, the model follows the code:
  `appendRawLiteralsHeader` does not write the layout of section 3.1.1.3.1.1 of
  RFC 8878 for 32 or more literals, and `makeError(off, "extraneous data after
  sequences")` is returned only for part of a byte.
- Integers are unbounded; widths that matter are written out: 16-bit counts
  (`FseEncoder.Valid`), the 64-bit container and the mask tables of the bit
  writer, the 32-bit word of the backward reader, the 32-bit wrap of a repeat
  offset minus one, 64-bit words in the checksum.
- The encoder's table of extra bits and the decoder's baseline tables agree on the
  number of bits of every code, and are one function each here
  (`SequenceCodes.LlBits`, `SequenceCodes.MlBits`).
- The repository has no writer for distribution headers; `FseHeaderWriter` is
  section 4.1.1 of RFC 8878 and serves as the reader's partner. The reader asks
  for 16 unread bits before every decision, so a header needs two more bytes
  behind it.
- `BuildFse` takes a normalised distribution because its only caller has just
  read one (`FseHeader.HeaderNormalised`).
- The broker of the producer model keeps one log, one expected sequence and its
  last batch per partition, acknowledges a repeat of that batch without appending
  it, and answers every partition it was asked about.
- Brokers, the partitioner, metadata, cancellation and the clock are parameters:
  `Env` is what the outside world does during one attempt, `now` is the time of
  a payload, `order` is the iteration order of a Go map. The checksum and the codecs
  of a record batch are functions of `RecordBatch.Env`; of a codec the model takes
  that it undoes itself on the payload at hand.
- `ReadCommitted.IsAbortedList` allows for entries that start before the first
  data batch still in the log, as after compaction.
- Concurrent requests to several brokers touch different partitions and are
  taken one after the other.

## Left out

- Frames, checksums of frames, block headers and `encodeLarge`, which starts a
  new frame after a block that is not the last.
- Huffman weight decoding and Huffman literals: the model starts at the weights.
- The run-length, FSE-compressed and repeat modes of the sequence tables, and the
  literal predefined decoding tables; the model builds the predefined tables.
- `SequenceBlock.BlockRoundTrip`: with 32 or more literals only the failing header
  has an if-and-only-if; what the decoder then makes of the misread bytes may lie
  in modes that are not part of this model. With an earlier window only one
  direction is stated.
- `BitStack.BitWriter.AddBits`: takes the caller's promise that the bits kept fit the
  64-bit container, which the writers of this model keep (`SequenceBlock.BlockRoomy`).
- `SequenceWriter.WriteSequences`: for tables of at most 17 bits together, which the
  predefined ones are.
- `SequenceBlock.DecodeBody`: Huffman literals and other table modes are errors here.
- `IdempotentProduce.SendRecords`: does not model 32-bit wrap-around of sequence
  numbers.
- `ProduceCall.ProduceSync`: one caller at a time, from partitions in step; the
  transactional producer, timeouts and back-off delays are not part of the model.
- `ProduceCall.MergeAcked`: an acknowledged result is a constructor of its own
  rather than a non-empty topic name.
- `RecordBatch.DecodeOneRecordBatch`: the CRC-32C is a parameter, and the sum of
  base offset and offset delta does not wrap at 2^64.
- `ConsumerPoll.RunExact`: for fetches that begin at the requested offset;
  `ConsumerBatches` has the statements for whole batches.
- Joining, committing and the incremental change of assignments.
- `ConsumerPoll.Consumer.PollOnce`: paused partitions and fetch errors are not modelled.
- `GroupAssignment.ComputeGroupAssignments`: returns the assignment itself, not
  its encoding; member ids and the topics of a member are distinct.
- `XxHash.XxHash64.Update`: the total length does not wrap at 2^64.
- LZ4, Snappy, gzip, request and response encoders, admin operations,
  transactions, schema registry, security and networking.
