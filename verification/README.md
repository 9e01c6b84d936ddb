# A verified model of the rardecode decompression engine

The Go package `rardecode` reads RAR archives. This project models the parts of it that do the decompression, in
Dafny, and proves what they promise: the memory and the arithmetic decoder of the PPM model, canonical Huffman decoding
over bit readers, the sliding window with its queue of filters, the filters, the token decoders of RAR 2.0, 2.9 and 5,
the blocks of a RAR 5 file, and the tree of paths that an opened archive offers.

`dafny verify dfyconfig.toml` checks everything.

## How the model is laid out

The source's structs whose methods update fields are classes with the same fields; their methods are proved against
functions on values, and lemmas prove what the source promises about those functions.

- **PPM memory** (`SizeClasses`, `Tiling`, `FreeLists`, `ByteHeap`, `Contexts`, `SubAllocator`). One array of states
  holds a byte heap, 38 non-empty size classes of free blocks on linked lists, contexts and their state lists.
  `Valid()` says that the free blocks, the blocks handed out and the gap of the upper heap tile the memory above the
  byte heap. `Sound()` adds that every block handed out belongs to one context. `Content(c)` is what context c says:
  its list of states, its suffix and its frequency sum. Every operation states what it does to one context's content
  and that it leaves all others alone, even when free blocks are glued or split inside it. Rescaling (`Rescaling`,
  `PpmModel`) works on top.
- **Range coder** (`Bits`, `RangeCoder`). The decoder's class is proved against `DecodeStep`, whose partner is the
  matching carryless encoder `Encode`: decoding what was encoded gives every symbol back.
- **Huffman** (`BitStrings`, `BitCache`, `BitReader`, `Canonical`, `HuffmanTables`, `Huffman`, `CodeLengths`,
  `CodeLengths20`). Bit readers are proved to deliver the bits of their bytes, high bit first. The canonical code is
  that of section 3.2.2 of RFC 1951. The decoder's three ways of reading (quick table, scan of limits, single bits at
  the end) are proved to give what reading the code one bit at a time gives.
- **Window and filters** (`LzWindow`, `FilterQueue`, `Decoding`, `DecodeReader`). The window is a ring over the history
  of all bytes written. Relative filter offsets are tied to absolute stream positions, and everything output is proved
  to be the stream with the applied groups of filters each at its interval (`Render`). The decoder behind the reader is
  a list of events: bytes, copies, filters, and ends of fills. `Decodings.DecodeOf` says, without a window, what the
  reader outputs next or why it outputs nothing: from the history, the events to come, an error kept for later, and
  the queue of absolute intervals. The reader's methods are proved to do exactly that, errors included.
- **Filters** (`Predictive`, `PredictiveFilters`, `AudioFilter`, `AddressFilters`, `ItaniumFilter`). Each filter is proved
  equal to a function, and that function to be undone by an encoder on both sides. `FilterLaws` and `AddressLaws` say
  what the functions make of their inputs, byte by byte and address by address.
- **Tokens** (`LzRuns`, `LzTables`, `Slots`, `Lz20`, `Lz29`, `Lz50`). What the next bits of a block say is one step;
  a run of steps fills the window. Runs are proved once for all three formats, and so is what the window cuts a block
  into: any sequence of fills reads part of what the bits say and leaves exactly the rest. Each format has its steps
  and a writer of tokens, and writing tokens and reading them back, in whatever fills, gives their meaning, to the last
  bit.
- **Token decoders** (`DecoderSets`, `Decoder20`, `Decoder29`, `Decoder50`). The classes that fill the window, each
  proved to do the run of its block. Making a decoder and reading a table give the state that filling starts from.
- **RAR 5 files** (`Blocks50`, `Files50`, `Scripts50`, `Outputs`). `Blocks` is what one fill reads, from block to block:
  headers, tables, tokens and filters; `AllOf` is all that is left of a file. `Decoder50.FillBlocks` is proved to do
  what `Blocks` says, and any sequence of fills to read a part of `AllOf` and leave exactly the rest. Blocks written one
  after another are read back, however many fills it takes. `Decoder50.FillWindow` is proved to do what a reader does
  that is given the file's events as a list, and `Outputs` says what all output of such a reader comes to: the history
  of the events, over all fills, with the filters applied each to its interval.
- **File tree** (`RarFs`). Every path but the root is listed exactly once, by its parent.

Integers are unbounded in Dafny; 8, 16, 32 and 64-bit arithmetic that may wrap is written out (`Wrap8`, `Wrap16`,
`Wrap32`, `Signed32`, `Signed64`, `Wrap64`). Go's `int` is taken to be 64 bits wide.

## What turned out to hold only in part

- A filter that is queued while part of a filtered block has been taken already is recorded too early, by exactly the
  part taken, or refused although it starts after all others: its offset is measured from the new read position, but
  the list counts from the block's start. A filter that is asked for at or after the start of the last block is taken
  and recorded where it was asked for exactly when nothing of a block is taken and it starts less than a window after
  the block before (`FilterQueue.RecordedWhereAsked`). Readers that misplace and that refuse one are
  `Decodings.MisplacedExample` and `Decodings.RefusedExample`.
- A copy is cut off at the end of the window, and its length is taken modulo the window's size. The history is what
  the copies mean exactly when none crosses the end of the window or is as long as the window
  (`Decodings.CopiesWhole`, and over all fills `Outputs.AllCopiesWhole`); `Decodings.CutExample` is one that does.
- `filterE8` changes addresses one-to-one at a position exactly when the position, as a signed 32-bit number, is not
  negative, or is the least number there is (`AddressFilters.OneToOne`). For whole buffers, `AddressFilters.Lossless`
  is the exact condition (`AddressFilters.BuffersOneToOne`): all positions that a buffer of that length may visit lie
  between 0 and 2^31, or there is at most one, and in the mode of RAR 5 it is a multiple of the file size. Under it
  both sides round-trip.
- A Huffman code that leaves some 15-bit prefixes unused does not always fail on them: they read as symbol 0 while the
  place computed for them lies inside the symbol table. All unused prefixes are refused exactly when there are none
  (`HuffmanTables.CompleteCode`) or every symbol has a code (`Huffman.RefusesUnused`); otherwise the first unused prefix
  reads as symbol 0 (`Huffman.UnusedReadsZero`).
- `filterRGBV3` looks only at bytes of its result that it has written exactly when its width is a positive multiple
  of 3 (`PredictiveFilters.RgbLooksAhead`), and exactly then its result does not depend on what the memory for it held
  (`PredictiveFilters.RgbMemory`). For other widths the round trip holds for the memory it started from.
- A RAR 5 block header gives a negative number of bits exactly when its size is 0 and its flags do not add 8 bits to
  it. One byte later the bit reader takes itself to have 249 to 255 bits of which the data has none
  (`Blocks50.NegativeLimit`, `Blocks50.NegativeExample`). The model says nothing about what is read after such a header.
- `init` of the RAR 5 decoder gives the bit reader new data but clears neither its cached bits nor its limit. The next
  file is read from its start exactly when the last block before was read to its end (`Decoder50s.Decoder50.Init`).
- The limits of a Huffman code are 16-bit numbers; they wrap for codes beyond Kraft's inequality. The decoder is proved
  safe for every table of lengths, and proved to decode under Kraft's inequality.

## Model

| member | source | states |
|---|---|---|
| SizeClasses.InitTables | ppm_model.go:48-82 | the two tables: entry i of one is the size of class i, entry u of the other the class of u units |
| SizeClasses.ClassOfIsLeast | ppm_model.go:48-82 | the class of u units is the least whose size is at least u, and one exists up to 128 units |
| SizeClasses.SplitIsExact | ppm_model.go:319-329 | units that fit no class exactly are cut into two listed sizes, of which the second is at most 3 |
| SizeClasses.FirstPieceIsLargest | ppm_model.go:319-329 | the first piece of u free units has the largest listed size that fits |
| Tiling.Partition | ppm_model.go:305-440 | every cell above the byte heap lies in the gap or in exactly one block, and never in both |
| Tiling.SplitTiled | ppm_model.go:319-329 | splitting a block keeps the tiling |
| Tiling.MergeTiled | ppm_model.go:347-362 | joining a block with the one after it keeps the tiling |
| Tiling.GapLowTiled | ppm_model.go:412-418 | taking a block from the bottom of the gap keeps the tiling |
| Tiling.GapHighTiled | ppm_model.go:422-438 | taking a unit from the top of the gap keeps the tiling |
| Tiling.BaseDownTiled | ppm_model.go:398-404 | taking a block from the top of the byte heap keeps the tiling |
| FreeLists.PushStacked | ppm_model.go:314-317 | linking a block in front of its list keeps all lists: each is the chain of its blocks, of its size, and no block is on two |
| FreeLists.PopStacked | ppm_model.go:305-312 | unlinking the first block keeps all lists |
| SubAllocators.SubAllocator.constructor | ppm_model.go:230-257 | a new memory of 1 to 256 MB is sound and holds no context |
| SubAllocators.SubAllocator.Restart | ppm_model.go:246-257 | starting again leaves a sound memory without contexts, the byte heap empty and the gap whole |
| SubAllocators.SubAllocator.RemoveFreeBlock | ppm_model.go:305-312 | the block taken is the first of the list, or none when it is empty; nothing else changes |
| SubAllocators.SubAllocator.AddFreeBlock | ppm_model.go:314-317 | the block is the first of its list, one cell is written, and no block handed out changes |
| SubAllocators.SubAllocator.FreeUnits | ppm_model.go:319-329 | the units are on the lists, in one or two blocks, each of the largest size that fits in what is left; nothing else moves |
| SubAllocators.SubAllocator.FreeIsTheRest | ppm_model.go:305-440 | the free cells are exactly those that neither the gap nor a block handed out covers |
| SubAllocators.SubAllocator.CollectFree | ppm_model.go:331-345 | all lists are empty, and their blocks are marked, with their sizes, on one chain through the second cells |
| SubAllocators.SubAllocator.MergeAll | ppm_model.go:347-362 | no marked block is followed by a marked block that it could be joined with; the chain and all blocks handed out are as they were |
| SubAllocators.SubAllocator.Redistribute | ppm_model.go:364-378 | every marked block is on the lists again, cut from its start into blocks of the largest size that fits in what is left; no block handed out changes |
| SubAllocators.SubAllocator.GlueFreeBlocks | ppm_model.go:331-378 | the same cells are free before and after; they make up joined blocks, no two of which could be joined further, and each is listed in blocks of the largest size that fits in what is left of it; no block handed out changes |
| SubAllocators.SubAllocator.ShrinkHeap1 | ppm_model.go:398-404 | the byte heap gives up exactly the block at its top, or has none to give |
| SubAllocators.SubAllocator.AllocUnitsRare | ppm_model.go:380-405 | with the glue count at 0 the count starts again and all free neighbours are glued first; else nothing is glued and the count goes down when the lists fail. Then a block of the asked class, the first block of the least larger class that has one, cut, or a block from the byte heap's top; or none, and after glueing none only if no run of free neighbours is long enough. All blocks handed out and all bytes below the byte heap's top are as they were |
| SubAllocators.NoRunGlued | ppm_model.go:331-387 | after glueing, with no listed block of a class or a larger one, no run of free cells was as long as a block of the class before it |
| SubAllocators.SubAllocator.AllocUnits | ppm_model.go:407-420 | the first block of the asked class, else the bottom of the gap, else as above; none only if no list of that class or a larger one, no byte heap and no gap has room, and with the glue count at 0 no run of free neighbours either |
| SubAllocators.SubAllocator.NewContext | ppm_model.go:422-438 | one new context with the given state and suffix, at an address that was not one: the top of the gap, else a listed unit, else one that is found as above; it fails only without room; all other contexts say what they said |
| SubAllocators.SubAllocator.NewContextSize | ppm_model.go:440-448 | one context with a list of the asked length |
| SubAllocators.SubAllocator.ExpandStates | ppm_model.go:503-532 | the context's list is one slot longer, its states before that, its suffix and sum kept, or memory is exhausted and no context changes; the list stays where it is while its block is large enough, else it is in the block that `AllocUnits` gives and its old block heads its list; with the glue count at 0 it fails only if no run of free neighbours is long enough; all others say what they said |
| SubAllocators.SubAllocator.ShrinkStates | ppm_model.go:473-501 | the context keeps exactly the first states of its list; a list that fits a lesser block is moved to the first listed one and its old block heads its list, or without one the end of its block is cut off and listed, and a single state goes to its context; all others say what they said |
| SubAllocators.SubAllocator.GetState | ppm_model.go:464-471 | state k of a context's list, wherever it is stored |
| SubAllocators.SubAllocator.SetState | ppm_model.go:464-471 | state k of one list is replaced, and no other context changes |
| SubAllocators.SubAllocator.ContextSetSummFreq | ppm_model.go:453-454 | one frequency sum is replaced, and no other context changes |
| SubAllocators.SubAllocator.PushByte | ppm_model.go:259-280 | one byte is stored, six to a state, all other bytes and all contexts are as they were, and the result is its negative address, or 0 when the heap is full |
| SubAllocators.SubAllocator.PopByte | ppm_model.go:282-282 | the byte heap's top goes down by one and no context changes |
| SubAllocators.SubAllocator.SuccByte | ppm_model.go:285-301 | the byte stored at a negative address |
| ByteHeap.StoredByte | ppm_model.go:259-301 | storing a byte in a cell changes that byte and no other, through both 16-bit and 32-bit fields |
| Contexts.ViewFrame | ppm_model.go:422-532 | a context whose own blocks are not written says the same in the new memory |
| Contexts.Recounted | ppm_model.go:473-532 | a list moved to a block that is large enough, with its new count, is what the context says, and no other context changes |
| Rescaling.SortStatesSorts | ppm_model.go:640-655 | the insertion sort orders by falling frequency and keeps every state as often as before |
| Rescaling.SurvivorsAreTheHalved | ppm_model.go:623-677 | the states left are the halved ones of positive frequency, as often as before, by falling frequency, and the first is the chosen one |
| Rescaling.RescaledFirst | ppm_model.go:623-655 | the chosen state comes first with frequency 64 to 66, all others have at most 62 |
| Rescaling.SurvivorsHalvedFairly | ppm_model.go:636-664 | the chosen state being raised by 4 before: with `orderFall` not 0 every state of positive frequency is left, and twice its new frequency is the old one or one more; with it 0 exactly those of frequency 2 and more are left, and twice the new one is the old one or one less |
| Rescaling.SortStable | ppm_model.go:640-655 | states of equal frequency stay in their order |
| Rescaling.DecayDivides | ppm_model.go:666-671 | the frequency of a single state left is divided by the highest power of two that is at most the escape share, but at least by 2, and rounded up |
| Rescaling.EscapeShareKept | ppm_model.go:656-676 | a sum that left a share for the escape symbol still does: the new sum is that of the frequencies and a positive share |
| PpmModel.Model.MoveUp | ppm_model.go:644-653 | one state of a list moves up and those between move down |
| PpmModel.Model.SettleAll | ppm_model.go:638-655 | the list is halved and sorted in place, and the two sums are counted |
| PpmModel.Model.DropZeros | ppm_model.go:656-676 | the states of frequency zero are cut off, and the sum is set; a single state decays |
| PpmModel.Model.Rescale | ppm_model.go:623-677 | the context becomes its rescaled form, the chosen state is at index 0, and no other context changes; which states are left, and with what frequencies, follows from the frequencies and `orderFall` |
| PpmModel.Model.Restart | ppm_model.go:564-584 | one context of order zero in which every byte has frequency 1 and the sum is 257 |
| RangeCoding.ShiftSane | ppm_model.go:110-126 | a round of normalizing keeps low + range within 2^32 and makes a measure smaller that does not depend on the input; the cut range is never zero |
| RangeCoding.SettleFirst | ppm_model.go:110-126 | the range stays when it has 2^15 places and its ends differ in the top byte; otherwise that byte is shifted out, and a narrow range whose ends differ is first cut at the next multiple of 2^24 |
| RangeCoding.EncodeInside | ppm_model.go:91-133 | the encoder's output, read as a number, lies in the interval of its state |
| RangeCoding.SettleTogether | ppm_model.go:110-126 | encoder and decoder shift the same bytes |
| RangeCoding.CountInInterval | ppm_model.go:105-108 | a code inside a symbol's interval counts between the symbol's bounds |
| RangeCoding.RoundTrip | ppm_model.go:91-133 | decoding the encoder's output gives a count inside each symbol's bounds, for every sequence of symbols |
| RangeCoding.RangeCoder.Init | ppm_model.go:91-103 | four bytes make the code, and the range is full |
| RangeCoding.RangeCoder.CurrentCount | ppm_model.go:105-108 | the count of the decoder's state, and the range divided by the scale |
| RangeCoding.RangeCoder.Normalize | ppm_model.go:110-126 | ends with range at least 2^15 and the pure decoder's state, or at the end of the data |
| RangeCoding.RangeCoder.Decode | ppm_model.go:128-133 | the pure decoder's step for the symbol |
| BitStrings.NumConcat | bit_reader.go:44-71 | the number that two bit strings spell together |
| BitCache.HoldsField | bit_reader.go:44-71 | shifting and masking a machine word takes a field of the bits it holds, whatever stands above them |
| BitReaders.Rar5BitReader.SetLimit | bit_reader.go:37-40 | exactly the first k bits of the bytes that follow, or all of them, are ahead |
| BitReaders.Rar5BitReader.Emptied | bit_reader.go:33-62 | nothing is ahead and no data is missing exactly when nothing is cached and nothing may follow |
| BitReaders.Rar5BitReader.PullByte | bit_reader.go:50-69 | what is ahead stays what it was with one byte more in the cache, or the data has ended |
| BitReaders.CountedPulled | bit_reader.go:60-69 | with bits to read and room for them, counting in bytes loses nothing |
| BitReaders.Rar5BitReader.ReadByte | bit_reader.go:24-30 | with no bits left to read, the next byte after the limit |
| BitReaders.Rar5BitReader.ReadBits | bit_reader.go:44-71 | the next k bits as a number, taken from what is ahead; otherwise nothing is lost, and the result tells the limit from data that ends before it |
| BitReaders.Rar5BitReader.UnreadBits | bit_reader.go:21-21 | the last k bits delivered are ahead again |
| BitReaders.RarBitReader.ReadBits | bit_reader.go:89-100 | the next k bits as a number, or the end of the data with nothing lost |
| BitReaders.RarBitReader.UnreadBits | bit_reader.go:102-104 | the last k bits delivered are ahead again |
| BitReaders.RarBitReader.AlignByte | bit_reader.go:107-109 | at most seven bits are skipped, and whole bytes remain |
| BitReaders.RarBitReader.ReadByte | bit_reader.go:149-155 | the next eight bits as a byte |
| Canonical.CodesFit | huffman.go:38-45 | under Kraft's inequality every code fits its length |
| Canonical.WalkFinds | huffman.go:92-136 | reading a symbol's code bit by bit finds the symbol, whatever follows |
| Canonical.WalkExtends | huffman.go:92-105 | a walk that ends within the bits at hand does not depend on what follows |
| Canonical.CodePlace | huffman.go:29-60 | every code begins where those before it end: all shorter ones, and of its own length those of the symbols before it |
| HuffmanTables.LimitGrows | huffman.go:38-41 | each limit follows from the one before by adding the codes of one length |
| HuffmanTables.AtLength | huffman.go:113-128 | comparing a number with a limit compares its first bits with the codes of one length, and its distance counts those codes |
| HuffmanTables.ScanLooksUp | huffman.go:113-136 | the first limit above a number, and the place computed from it, give what the walk gives |
| HuffmanTables.QuickFinds | huffman.go:106-112 | when a code no longer than the quick bits lies ahead, its first quick bits alone find it |
| HuffmanTables.CompleteCode | huffman.go:92-136 | every 15 bits begin with a code exactly when the codes fill Kraft's inequality |
| HuffmanTables.PosFits | huffman.go:54-60 | no more symbols have codes than there are, so that no place is out of range |
| Huffman.HuffmanDecoder.Init | huffman.go:29-90 | limits, positions, symbol list and quick table are those of the code, for every table of lengths |
| Huffman.HuffmanDecoder.FillQuick | huffman.go:62-89 | each entry of the quick table holds what walking its index finds |
| Huffman.HuffmanDecoder.ListSymbols | huffman.go:47-60 | the symbols with codes, the shorter codes first and in order, and then zeros |
| Huffman.HuffmanDecoder.ReadBitwise | huffman.go:92-105 | at the end of the input single bits find what the walk finds, and the loop ends before 15 bits |
| Huffman.HuffmanDecoder.ReadSym | huffman.go:92-136 | a symbol below the table's length for every code; under Kraft's inequality exactly the walk's symbol and bits; the end is reported only when no bit is left |
| Huffman.RoundTrip | huffman.go:92-136 | reading back the codes of any symbols gives those symbols and leaves exactly what followed |
| Huffman.RefusesUnused | huffman.go:113-136 | prefixes that begin no code are all refused exactly when there are none or every symbol has a code |
| Huffman.UnusedReadsZero | huffman.go:113-136 | otherwise the first prefix that begins no code reads as symbol 0 |
| Huffman.EndReadsAlike | huffman.go:92-105 | a symbol read near the end is the one read had more bits followed |
| CodeLengths.ReadLevelTable | huffman.go:141-162 | the lengths of the small code, as the pure reading gives them, each at most 15 |
| CodeLengths.ReadCodeLengthTable | huffman.go:140-206 | every entry stays at most 15; under Kraft's inequality the table, the bits left and the errors are those of the pure reading |
| CodeLengths.TableRoundTrip | huffman.go:140-206 | a table written as a small code and runs is read back, over any table before, to the last bit; the small code is written in any pieces: lengths, and runs of 3 to 17 zeros |
| CodeLengths.EntryReaches | huffman.go:170-176 | added to the old entry, the symbols 0 to 15 count on from it modulo 16 and reach every length once; otherwise the symbol is the length |
| CodeLengths20.ReadCodeLengthTable20 | decode20.go:41-101 | every entry stays at most 15; under Kraft's inequality the table, the bits left and the errors are those of the pure reading |
| CodeLengths20.TableRoundTrip20 | decode20.go:41-101 | a table written as a small code and runs is read back, over any table before, to the last bit |
| LzWindow.RepeatAt | decode_reader.go:113-148 | every byte of a copy is the one at the distance before it |
| LzWindow.RepeatShort | decode_reader.go:124-141 | a copy no longer than its distance is a piece of the history at once |
| LzWindow.SourcePlace | decode_reader.go:119-122 | the source index lies at the distance, in this lap or the one before, for every offset |
| DecodeReaders.DecodeReader.WriteByte | decode_reader.go:106-109 | one byte is appended to the history |
| DecodeReaders.DecodeReader.CopyBytes | decode_reader.go:113-148 | the byte-by-byte copy at the offset's distance, for every length and offset, clipped at the window's end |
| Decodings.CopiesWhole | decode_reader.go:113-148 | the history is what the decoder means exactly when no copy crosses the window's end or is as long as the window |
| Decodings.CutExample | decode_reader.go:113-148 | three bytes before the window's end, a copy of five bytes writes three |
| DecodeReaders.DecodeReader.QueueFilter | decode_reader.go:151-176 | a filter is refused exactly when 8192 are queued or a queued block starts after the place counted for it, and with which error; the others are recorded, and at which stream position |
| FilterQueue.RecordedWhereAsked | decode_reader.go:151-176 | a filter that starts at or after the last block is taken and recorded where it was asked for exactly when no block is part-consumed and it starts less than a window after the block before |
| FilterQueue.OrderlyRises | decode_reader.go:157-174 | the absolute positions of the queue never fall |
| FilterQueue.StartsAfterLast | decode_reader.go:158-162 | walking the whole queue refuses exactly the filters that start before the last block |
| Decodings.MisplacedExample | decode_reader.go:202-217 | a reader whose window is full ten bytes into a block at the read position, and that is asked in the next fill for a filter 100 bytes past the block's start, records it 90 bytes past it |
| Decodings.RefusedExample | decode_reader.go:157-162 | a reader that refuses a filter which starts after all queued blocks, because part of a block is taken |
| FilterQueue.AbsoluteAppend | decode_reader.go:157-174 | an appended relative offset is the last start plus that offset in the stream |
| FilterQueue.OriginMoved | decode_reader.go:280-286 | reading on and lessening the first offset by as much moves no block |
| FilterQueue.RenderOutside | decode_reader.go:258-303 | with filters that keep lengths, a byte outside all intervals is output unchanged in its place |
| FilterQueue.RenderMore | decode_reader.go:266-288 | bytes after all applied filters pass through in order |
| FilterQueue.ChainSplit | decode_reader.go:233-254 | filters of one start are applied one after another |
| DecodeReaders.DecodeReader.Init | decode_reader.go:54-85 | a file starts with an empty window on reset, else with all that the old window held, also in a larger one, and nothing output; the window is as large as the largest of 2^18, the size asked for and the old one |
| DecodeReaders.DecodeReader.RunDecoder | decode_reader.go:185-199 | which events are done, why it stopped there, the history after exactly those events, and the filters among them recorded in order |
| Decodings.DecodingStep | decode_reader.go:185-199 | the first event is done, refused as the queue says, or ends the fill; and the fill goes on after it |
| Decodings.DecodingTaken | decode_reader.go:185-199 | events that find room and filters that the queue takes are all done, and the fill goes on after them |
| DecodeReaders.DecodeReader.Fill | decode_reader.go:178-199 | an error kept from before, or the decoder's events from the window's start when it is full; an error with bytes before it is kept, one without is given |
| DecodeReaders.DecodeReader.BufBytes | decode_reader.go:202-220 | exactly the stream's next n bytes, over as many fills as needed, or the first error with all that there was taken and still short of n |
| DecodeReaders.DecodeReader.ApplyChain | decode_reader.go:224-255 | exactly the filters of one start are popped and applied in order, each to the whole output of the one before; the error is that of the first length that does not match or filter that fails, and there is none otherwise |
| Decodings.ChainFaults | decode_reader.go:233-254 | there is a reason why a chain fails exactly when it has no output |
| DecodeReaders.DecodeReader.ProcessFilters | decode_reader.go:224-255 | the block's bytes and no others are filtered, whether or not the block crosses the window; it fails exactly when the stream ends inside the block or its chain fails, with the error that says so; the output so far is the rendered stream |
| DecodeReaders.DecodeReader.FillToRead | decode_reader.go:260-265 | with nothing left to read, the fill there is, or its error |
| DecodeReaders.DecodeReader.Decode | decode_reader.go:258-303 | what is output next, or the error instead, is decided by the history, the decoder's events, the kept error and the queue alone: bytes before the next block pass through, a block at the read position is filtered, a block before it is refused, also after a fill; all output so far is the rendered stream |
| DecodeReaders.DecodeReader.Read | decode_reader.go:306-316 | what is handed out continues what was handed out before, whatever the sizes of the reads; it fails exactly when there is nothing buffered and decoding gives that error |
| Outputs.AllCopiesWhole | decode_reader.go:113-199 | over all fills, the window being begun again whenever it is full, the history is what the decoder means exactly when no copy crosses the window's end or is as long as the window |
| Outputs.TakenPlayOn | decode_reader.go:185-199 | what a fill does and then what is left to the fills after it is all that there was to do |
| Outputs.OutputRenders | decode_reader.go:258-316 | all output together is the history with the groups of filters each applied to its interval, as far as the reader comes; when it ends with the end of the file, the history is all that the decoder had to do |
| Outputs.PlainRenders | decode_reader.go:258-316 | without filters all output together is exactly what the decoder wrote, and then comes the end of the file |
| Predictive.InterleavedIsPermutation | filters.go:120-139 | channel after channel, every place is visited exactly once |
| Predictive.Inverses | filters.go:120-272 | a filter that predicts each byte from what it has filled in and used is undone by one encoder, on both sides, for every predictor |
| Predictive.MemoryIrrelevant | filters.go:152-201 | a filter that looks only at places it has filled does not depend on what the memory for its result held |
| Predictive.FilteredAt | filters.go:120-139 | a byte is its prediction less its input, when only the bytes before it in channel order are filled in; the inputs of each channel follow those of the one before |
| PredictiveFilters.FilterDelta | filters.go:120-139 | the result is that of the predictive filter with the byte before as prediction; all zeros without channels |
| PredictiveFilters.DeltaLooksBack | filters.go:120-139 | the delta filter looks only at places it has filled |
| FilterLaws.DeltaSums | filters.go:120-139 | byte m of a channel is the negated sum of the channel's first m + 1 inputs |
| PredictiveFilters.FilterRgb | filters.go:152-201 | the result is that of the predictive filter with the nearest neighbour as prediction, and then the green bytes added |
| PredictiveFilters.Nearest | filters.go:175-188 | the prediction is one of three neighbours, the nearest to left + upper - upper-left, and of equally near ones the first |
| PredictiveFilters.AddGreenFrom | filters.go:195-199 | the green bytes are added in place to the two around them |
| PredictiveFilters.GreenAdded | filters.go:195-199 | in every whole pixel from the start on, the middle byte is added to the two around it |
| PredictiveFilters.GreenKept | filters.go:195-199 | all other bytes stay |
| PredictiveFilters.RgbInverts | filters.go:152-201 | for every width and start, the filter is undone on both sides |
| PredictiveFilters.RgbLooksAhead | filters.go:170-189 | the filter looks only at places it has filled exactly when there are whole pixels to a line |
| PredictiveFilters.RgbMemory | filters.go:152-201 | the result is the same whatever the memory for it held exactly when there are whole pixels to a line |
| FilterLaws.RgbByte | filters.go:152-194 | with whole pixels to a line, a byte and its input add up to the nearest of its neighbours of the same colour to the left, a line above and left of that; in the first line and pixel, to the left one |
| AudioFilter.Next | filters.go:222-268 | whatever the data, the coefficients stay between -17 and 16 |
| AudioFilter.FilterAudio | filters.go:203-272 | the result is that of the predictive filter whose coefficients follow the channel's inputs |
| AudioFilter.Choose | filters.go:244-253 | the adjustment of least cost, the first of equals, and the costs zero again |
| FilterLaws.AudioByte | filters.go:213-220 | byte m of a channel depends on the channel's first m + 1 inputs alone |
| FilterLaws.StillSubtracts | filters.go:214-220 | while the coefficients are zero a byte is the one before it less the input |
| FilterLaws.QuietStays | filters.go:214-268 | after one input and then zeros a channel stays where it is |
| FilterLaws.Differences | filters.go:231-235 | what is multiplied with the coefficients is the last difference of the channel's bytes, with a sign, its change, and the change before that |
| FilterLaws.WeighedStep | filters.go:214-215 | a step of a coefficient moves eight times the prediction by its difference |
| FilterLaws.PredictWeighs | filters.go:214-215 | the prediction is an eighth of eight times the last value and each difference as often as its coefficient says, as a byte with a sign |
| FilterLaws.CostsAreErrors | filters.go:222-229 | the cost of a choice grows by eight times how far from the byte its coefficients would have predicted |
| FilterLaws.CoefficientsFollow | filters.go:237-268 | at the first byte of a channel and every 32nd after it the coefficients take the cheapest choice, within their range, and the costs start again; at the others the costs are kept |
| AddressFilters.OneToOne | filters.go:58-64 | decoding an address loses nothing exactly at positions that are not negative, or the least |
| AddressFilters.AddressBack | filters.go:58-64 | at such positions the encoder undoes it on both sides |
| AddressFilters.E8Back | filters.go:44-68 | decoding undoes encoding and encoding decoding, in both modes, for all buffers none of whose positions loses anything |
| AddressFilters.BuffersOneToOne | filters.go:44-68 | decoding buffers of a length is one-to-one exactly under that condition |
| AddressFilters.FilterE8 | filters.go:44-68 | the buffer becomes the decoded walk over it |
| AddressLaws.CallTurned | filters.go:44-68 | nothing changes up to the first opcode; the address after it turns by its position in the file, counted in rounds of 2^24, and what follows is filtered from its own position on |
| AddressLaws.NoAddresses | filters.go:44-68 | a buffer without opcodes stays as it is |
| AddressFilters.ArmBack | filters.go:274-287 | decoding undoes encoding and encoding decoding, for all buffers and offsets |
| AddressFilters.FilterArm | filters.go:274-287 | the buffer becomes the decoded walk over it |
| AddressLaws.BranchTurned | filters.go:274-287 | the lower 24 bits of every branch-and-link instruction lose its place in the file, counted in instructions; other instructions stay |
| AddressLaws.OddBytesStay | filters.go:274-287 | so do the bytes after the last whole instruction |
| ItaniumFilter.ItaniumBack | filters.go:94-118 | the same for bundles: the 20-bit fields never touch the template or the bits tested |
| ItaniumFilter.WordTurned | filters.go:78-113 | replacing the field in a 32-bit word turns three bytes and keeps the fourth |
| ItaniumFilter.FilterItanium | filters.go:94-118 | the buffer becomes the decoded walk over its bundles |
| AddressLaws.InstructionTurned | filters.go:94-118 | an instruction that its bundle's template says is a branch, with the opcode of a call, has the bundle's place in the file taken from the 20 bits of its address; other addresses, the opcodes, the templates and the bits around an address stay |
| AddressLaws.LastBytesStay | filters.go:94-118 | what follows the last bundle with 22 bytes from it on stays |
| Slots.LengthCoding | decode50.go:121-135 | slots and extra bits are one-to-one with lengths from 2 on, and larger slots mean longer lengths |
| Slots.OffsetCoding | decode50.go:209-260 | slots and extra bits are one-to-one with offsets from 1 on, and larger slots mean larger offsets |
| Slots.LengthSlotTop | decode50.go:121-135 | a length, less 2, has its three highest bits in its slot and the others as extra bits |
| Slots.OffsetSlotTop | decode50.go:215-260 | an offset, less 1, has its two highest bits in its slot and the others as extra bits |
| Slots.LengthsTile | decode50.go:121-135 | the slots' ranges of lengths follow each other without gaps |
| Slots.OffsetsTile | decode50.go:221-260 | the slots' ranges of offsets follow each other without gaps |
| Lz50.StepReads | decode50.go:276-311 | reading what was written for a token gives the token's meaning and leaves exactly what followed |
| LzRuns.FillsRead | decode50.go:276-311 | any sequence of fills, each with its room, reads all that the bits say, or a part of it after which exactly the rest is still ahead; enough fills with room read all |
| LzRuns.RunReads | decode50.go:276-311 | whatever the steps, and however many fills it takes, reading what was written for any tokens does what they come to, and stops at what follows them |
| LzRuns.RunKeeps | decode50.go:276-311 | what every step keeps, a run keeps, and what holds of every step's event holds of all |
| LzRuns.WriteAction | decode_reader.go:106-148 | one action's bytes are in the window, and the room for the next is less by as many |
| Lz50.BlockReads | decode50.go:276-311 | however many fills it takes, reading a block written for any tokens does what they mean, to its very end |
| Lz50.MatchLengths | decode50.go:193-274 | at a new offset a match is 0 to 3 bytes longer than its slot says, by the offset; at one used before as long as its slot says |
| Lz50.RecentOffsets | decode50.go:193-311 | of two matches one after the other, of which the second takes an offset used before: it counts back through the uses, a new offset going before the others and one used again coming to the front |
| Lz50.AgainRepeats | decode50.go:289-292 | a match once more is the match before it once more |
| LzTables.LengthsCovered | decode29_lz.go:14-17 | the 28 ranges of lengths follow each other without gaps |
| LzTables.OffsetsCovered | decode29_lz.go:19-29 | the 60 ranges of offsets follow each other without gaps |
| LzTables.ShortsCovered | decode29_lz.go:31-32 | the 8 ranges of near offsets follow each other without gaps |
| LzTables.TablesFollowSlots | decode29_lz.go:14-29 | lengths and the offsets below 2^18 have the slots of RAR 5; from there on offsets have 16 extra bits, and from 2^20 on 18 |
| LzTables.SlotCoding | decode29_lz.go:14-32 | slots and extra bits of such a table are one-to-one with the numbers below its end, and larger slots mean larger numbers |
| Lz29.StepReads | decode29_lz.go:233-264 | reading what was written for a token gives the token's meaning and leaves exactly what followed |
| Lz29.EndReads | decode29_lz.go:84-128 | the end of a block or of the file, and a filter's description of any size, are read back |
| Lz29.BlockReads | decode29_lz.go:233-264 | however many fills it takes, reading a block written for any tokens and an end does what they mean and leaves exactly what followed |
| Lz29.MatchLengths | decode29_lz.go:130-230 | at a new offset a match is 3 to 5 bytes longer than the number in its slot, by the offset; at one used before 2 longer; nearby always 2 |
| Lz29.RecentOffsets | decode29_lz.go:130-264 | the same of two matches of a RAR 2.9 block, where a near offset counts as a new one |
| Lz29.AgainRepeats | decode29_lz.go:244-246 | a match once more is the match before it once more |
| Lz29.OffsetInSlot | decode29_lz.go:168-214 | every offset read, its lowest four bits repeated or not, lies in the range of its slot |
| Lz29.RunBounded | decode29_lz.go:130-264 | whatever the bits, all matches are short and near, and the low bits and their repeats stay in range |
| Decoder29s.Lz29Decoder.constructor | decode29_lz.go:35-55 | a new decoder whose parts share no memory, with nothing remembered |
| Decoder29s.Lz29Decoder.Init | decode29_lz.go:57-82 | the table and the errors are those of the pure reading; after it the decoder is ready with the table's codes |
| Decoder29s.TakeFilterData | decode29_lz.go:84-110 | a filter's description of the size it gives, or none |
| Decoder29s.TakeMark | decode29_lz.go:112-128 | the end of the block, of the file or of both, or none |
| Decoder29s.Lz29Decoder.DecodeLength | decode29_lz.go:130-150 | an offset used before comes to the front, with a new length |
| Decoder29s.Lz29Decoder.DecodeShortOffset | decode29_lz.go:152-166 | a near offset and a length of 2 |
| Decoder29s.Lz29Decoder.DecodeOffset | decode29_lz.go:168-230 | a new offset comes before the others, with a length that is greater for far ones, and its lowest bits are remembered |
| Decoder29s.Lz29Decoder.Fill | decode29_lz.go:233-264 | the window, what is remembered, the bits left and the reason to stop are those of the run of the block |
| Lz20.StepReads | decode20_lz.go:119-150 | reading what was written for a token gives the token's meaning and leaves exactly what followed |
| Lz20.Fills20Read | decode20.go:131-161 | fills that each count from 0 what is still wanted read what one count over all of them reads |
| Lz20.BlockReads | decode20_lz.go:119-150 | however many fills it takes, reading a block written for any tokens does what they mean, up to the bytes wanted or the block's end |
| Lz20.MatchLengths | decode20_lz.go:35-117 | at a new offset a match is 3 to 5 bytes longer than the number in its slot, at one used before 2 to 5, by the offset; nearby always 2 |
| Lz20.RecentOffsets | decode20_lz.go:35-150 | the same of two matches of a RAR 2.0 block, where an offset used again is remembered once more |
| Lz20.AgainRepeats | decode20_lz.go:136-137 | a match once more is the match before it once more |
| Lz20.RunBounded | decode20_lz.go:35-150 | whatever the bits, all matches are short and near |
| Decoder20s.Lz20Decoder.Init | decode20_lz.go:20-33 | the table and the errors are those of the pure reading; after it the decoder is ready with the table's codes |
| Decoder20s.Lz20Decoder.DecodeOffset | decode20_lz.go:35-70 | a new offset comes before the others, with a length that is greater for far ones |
| Decoder20s.Lz20Decoder.DecodeLength | decode20_lz.go:72-101 | an offset used before is remembered once more, with a new length |
| Decoder20s.Lz20Decoder.DecodeShortOffset | decode20_lz.go:103-117 | a near offset and a length of 2 |
| Decoder20s.Lz20Decoder.Fill | decode20_lz.go:119-150 | the window, what is remembered, the bytes counted, the bits left and the reason to stop are those of the run of the block |
| Decoder50s.Decoder50.SlotToLength | decode50.go:121-135 | the length of a slot and its extra bits |
| Decoder50s.Decoder50.ReadNewOffset | decode50.go:215-260 | the offset of a slot, its extra bits and the symbol for the lowest four |
| Decoder50s.Decoder50.DecodeLength | decode50.go:193-207 | an offset used before comes to the front, with a new length |
| Decoder50s.Decoder50.DecodeOffset | decode50.go:209-274 | a new offset comes before the others, with a length that is greater for far ones |
| Decoder50s.Decoder50.Fill | decode50.go:276-311 | up to the block's end or a filter, the window, the offsets kept, the length, the bits left and the reason to stop are those of the run of the block |
| Decoder50s.Decoder50.constructor | decode50.go:29-44 | a new decoder whose parts share no memory stands at the start of its file, ready to read |
| Decoder50s.Decoder50.Init | decode50.go:48-64 | with a reset the offsets, the length and the table are zero, else they are kept; the decoder stands at the start of the new file exactly when the bit reader had no bit cached and none to follow |
| Decoder50s.Decoder50.TakeHeader | decode50.go:66-104 | the header's number of bits and flags, or none when the data ends, its size has four bytes or its sum is wrong; all bytes after it are left |
| Decoder50s.Decoder50.ReadBlockHeader | decode50.go:66-119 | the next block and the codes of its table, if it has one, or a refusal, as the pure reading says |
| Decoder50s.Decoder50.ReadFilter5Data | decode50.go:138-156 | a number of one to four bytes, the lowest first |
| Decoder50s.Decoder50.TakeFilter | decode50.go:158-191 | a filter's place, length and kind, or none, as the pure reading says |
| Decoder50s.Decoder50.FillBlocks | decode50.go:276-311 | reading on from block to block: the history, the filters queued, all the decoder's state and the reason to stop are those of `Blocks`; a filter that the queue refuses ends it there with the refusal |
| Decoder50s.Decoder50.FillWindow | decode50.go:276-311 | one fill does what a reader does that is given the events of the rest of the file, with its error, and leaves the events after those |
| Blocks50.BlocksArePart | decode50.go:276-311 | a fill reads all that is left of a file, or fills the window with a part of it and leaves exactly the rest |
| Blocks50.FileFillsRead | decode50.go:276-311 | so does any sequence of fills, and enough fills with room read all |
| Scripts50.FillOfFile | decode_reader.go:185-199 | a reader that is given a file's events fills its window as the blocks say, and is then given the events of the rest of the file |
| Scripts50.FillRefused | decode_reader.go:151-176 | the same fill ends at the first filter that the queue refuses |
| Blocks50.NegativeLimit | decode50.go:82-100 | a header's number of bits is negative exactly when its size is 0 and its flags do not add 8 bits; a byte later the bit reader counts nearly 256 bits |
| Blocks50.NegativeExample | decode50.go:82-100 | a header of three bytes that gives -7 bits |
| Files50.HeaderReads | decode50.go:66-108 | a header that was written is read back, whatever follows |
| Files50.LimitReads | bit_reader.go:37-71 | bits packed into bytes are exactly what a limit leaves ahead, and the bytes after them what it leaves beyond |
| Files50.ReadsFilter | decode50.go:138-191 | the description of a filter that was written is read back |
| Blocks50.FilterUndoes | decode50.go:158-191 | each kind of filter undoes its encoder on all data and its encoder undoes it: delta with channels, calls and jumps where no position loses anything |
| Blocks50.FilterTurns | decode50.go:173-190 | the filter of calls looks for the opcode 0xe8 and that of jumps for 0xe9 as well; nothing changes up to the first, and its address turns by its position |
| Files50.BodyReads | decode50.go:276-311 | tokens and filters in any order, written into a block, say what was meant, to the block's end |
| Files50.FileReads | decode50.go:66-311 | blocks written one after another, each with a table of its own or the one before's, say from anywhere in a file what was meant: what the window and the filters get, what is remembered, the codes and the table, and exactly what followed |
| Files50.FileRoundTrip | decode50.go:48-311 | a whole file is read back from its start in any sequence of fills: a part of what was meant, with the rest still ahead, and all of it once there were enough fills |
| Scripts50.WrittenOutput | decode_reader.go:258-316 | reading a written file outputs the history of what was written with the filters applied each to its interval, as far as the reader comes; without filters, all of it; and the history is what the tokens mean exactly when no copy crosses the window's end or is as long as the window |
| RarFs.OpenFS | fs.go:311-350 | a tree with every file's path, each node holding the first file of the highest version for its path, and no other paths than the files' and those above them |
| RarFs.KeptIsFirstHighest | fs.go:329-335 | the file kept for a path is the first of the highest version |
| RarFs.AppearsOnce | fs.go:336-349 | every node but the root is in its parent's list, at one place, and in no other list |
| RarFs.ClosedUp | fs.go:336-349 | all parents up to the root are in the tree |
| RarFs.Sub | fs.go:247-274 | the subtree is a tree, looking up k in it gives what dir/k gives, and which directories are refused |

## Left out

- PPM `update`, `createSuccessors`, the SEE contexts and the decoding of symbols (ppm_model.go:141-167, 534-601 in part, 679-1053): the context tree's own invariant is a further model on top of the memory proved here.
- `subAllocator.init` reusing a larger `states` slice of an earlier file (ppm_model.go:230-244): the model starts from fresh zeroed memory.
- `SubAllocators.SubAllocator.GlueFreeBlocks`: the source's one function is four methods here (collect, merge, cut and list again); that two free neighbours survive only if their sizes do not fit 16 bits is stated of the joined blocks, before they are cut into listed sizes again.
- `SubAllocators.SubAllocator.ExpandStates`: asks that no state of the context carries the successor -1, which marks free blocks; the source's users write only addresses, which are 0 or more, and byte positions, which are -14 or less.
- `SubAllocators.SubAllocator.ShrinkStates`: asks the same.
- `SubAllocators.SubAllocator.NewContextSize`: asks that there is no context yet and that the gap has room, as after `restart`, its only caller; the source does not check either.
- `Huffman.HuffmanDecoder.ReadSym`: reads either reader through a datatype of the two where the source has an interface.
- `DecodeReaders.DecodeReader.RunDecoder`: the decoder is a list of events, each done while the window has room; `LzRuns`, `Blocks50` and the decoders' classes say which events the bits give. `io.ErrUnexpectedEOF` and other errors of the data are not told apart.
- `DecodeReaders.DecodeReader.ProcessFilters`: after an error nothing is promised of the reader's state, as the source reads no further.
- `Decoder50s.Decoder50.FillBlocks`: nothing is said beyond a header with a negative number of bits, nor beyond a table or block whose codes break Kraft's inequality; all kinds of bad data are one reason to stop. A copy is written by the fill loop, not by the function that decodes it.
- `Decoder50s.Decoder50.ReadBlockHeader`: nothing is said of the block after such a header, or with such a table.
- `Decoder50s.Decoder50.Init`: a new reader is modelled as new data in the same source; the room of the table, which follows from the version, stays.
- `Scripts50.WrittenOutput`: which filters are refused, or fail, while a file with filters is read follows from `Decodings.DecodeOf`, fill by fill; no condition for the whole file is stated.
- `Decoder29s.Lz29Decoder.Fill`: one block at a time; the loop of decode29.go that chooses between PPM and LZ blocks, and parsing the description of a filter (decode29.go:68-272), are not modelled.
- `Decoder20s.Lz20Decoder.Fill`: one block at a time; the loop of decode20.go and audio blocks (decode20_audio.go) are not modelled. The table passed to `Init` has exactly the entries it uses, where the source passes the front of one that audio blocks share.
- `BitReaders.Rar5BitReader.ReadByte`: only with no bits left to read, where block headers are read.
- `Huffman.HuffmanDecoder.Init`: takes at most 65535 code lengths, each at most 15, as all callers pass; memory kept for a larger symbol table is not reused.
- `BitReaders.Rar5BitReader.SetLimit`: takes a limit that is not negative; see above for headers that give another.
- `BitReaders.RarBitReader.ReadBits`: a failing read does not tell the end of the data from other errors; `readUint32` and `Read` are left out.
- `DecodeReaders.DecodeReader.Init`: choosing a decoder by version and its two errors are left out.
- `ReadByte`, `WriteTo` and `nextFile` of the decode reader: variants of `Read`.
- The filters' use of spare slice capacity for their results, and pooling of buffers: results are fresh zeroed arrays.
- PPM blocks of RAR 2.9 (decode29_ppm.go).
- `vm.go` and the filters it runs, with `getV3Filter`: forty short instructions.
- Archive headers, volumes, checksums, encryption and I/O.
- `RarFs.OpenFS`: paths are given as lists of elements that were cleaned and checked already; listing the archive's files is left out.
