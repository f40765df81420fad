# Verification of the media pipeline

The repository wraps FFmpeg for Windows media playback and carries part of FFmpeg's source.
This project models the parts with the most state and arithmetic and proves what they promise.
Each component has its operations in the form the source gives them (classes with fields, arrays
and loops), proved against functions on values, and its main results as lemmas about these
functions over all inputs and all runs. `dafny verify dfyconfig.toml` checks everything.

| files | component |
|---|---|
| `common.dfy`, `sums.dfy`, `passage.dfy` | what several components share |
| `huffman_*.dfy` | 4XM: reading the frequency table, building the Huffman code and its order and branches, and the lookup tables that accept or refuse it |
| `block_*.dfy` | 4XM: inter frames, from block codes to the stored frame, and how such frames are written |
| `fragments.dfy` | 4XM: frames that arrive in fragments |
| `bsf_pump.dfy` | ffmpeg: packets through the chain of bitstream filters |
| `video_sync.dfy`, `video_times.dfy` | ffmpeg: frames duplicated, dropped and numbered before the encoder |
| `mux_timestamps.dfy`, `mux_repairs.dfy` | ffmpeg: packets before and after the header, and their timestamps |
| `avcc.dfy` | H.264: length-prefixed units (ISO/IEC 14496-15) to a byte stream (ITU-T H.264, Annex B) |
| `demux.dfy`, `demux_routes.dfy` | two sample providers on one reader |
| `audio_samples.dfy`, `audio_times.dfy` | packets decoded and collected into audio samples |
| `mft.dfy`, `mft_decoder.dfy`, `mft_results.dfy` | the Media Foundation transform, its decoding context, the decoder behind it, and what calls answer |
| `cmdline.dfy` | ffmpeg: splitting the command line into groups |
| `planar_rle.dfy`, `planar_writer.dfy` | 8BPS: run-length coded planes |
| `delta_decode.dfy`, `delta_writer.dfy` | 8SVX: delta coded sound in pieces |

How the environment appears. Codecs and filters are arbitrary functions from a state and an item, or
from the items before and an item, to finitely many results. The demuxer is an arbitrary list of
answers. Calls into libraries that can fail (initialising a decoder, copying a sample, setting an
option) take their outcome as a parameter, and `AV_QSORT` is any function that sorts by the keys. Bits
are a function from positions; byte buffers are sequences. Doubles are reals and `lrint` rounds half
to even. 32-bit arithmetic is written out where it can wrap: the guards of the H.264 rewriting, the
row length counter of 8BPS, the pixel pairs of 4XM.

Where the code does less than one would expect, the code is modelled as it is, and the exact
condition is proved, mostly with a concrete input:

- With all 257 symbols used, the 4XM merge loop runs out of nodes: two roots remain and the words
  are no prefix code (`PrefixFreeIff`, `KraftSum`). init_vlc then refuses the table, except exactly if
  one of the two roots is a symbol, which has no word (`AcceptedIff`, with one input each:
  `AllOnesIsRefused`, `OneHeavyIsAccepted`).
- Fragments with id 0 collide with empty slots (`ZeroIdIff`, `StreamFaithfulIff`, `FrameZeroIsLost`); with
  100 frames incomplete the slot index becomes -1 (`NoSlotWhenFullIff`, `HundredAndOneFrames`).
- A duplication that is too large breaks the balance of frames in some cases (`AlwaysBalancedIff`,
  `SkippedFlushIsUnbalanced`); in passthrough mode the encoder's times can go back
  (`OtherModesFollowPictures`, `PassthroughCanGoBack`).
- A packet without DTS makes the muxer's DTS check forget the last one (`RunInOrderIff`,
  `MissingDtsBreaksOrder`).
- Records with several SPS or PPS, and sets of 256 bytes and more, are misread (`ParameterSetsIff`).
- A first time of -1 is taken for no time: the audio decoded is lost, the stream disabled
  (`NoSampleIff`, `MinusOneIsLost`).
- `-- --`: the argument after `--` is no file name if it is `--` again (`AfterDashesIff`,
  `SecondDashesAreNoFile`).
- 24-bit 8BPS decoded into 32 bits puts the colours into the wrong bytes on big-endian machines
  (`ColoursIff`).
- The comment in the transform's context says that the decoder has always been drained. It is not: one
  frame is taken for each packet, so after a packet with two the next but one is refused (`RefusedIff`,
  `ThirdPacketIsRefused`), and draining closes the decoder over the frames it holds (`PromptIff`,
  `DrainLosesFrame`). A stream change after the output type was cleared uses a null pointer
  (`NullTypeIff`).

## Model

| member | source | states |
|---|---|---|
| `CodeLengths.KraftInequality` | FFmpegInterop/ffmpeg/libavcodec/4xm.c:684-698 | Any prefix-free code for the used symbols, whatever its lengths, satisfies the Kraft inequality; the yardstick the tables are measured against |
| `CodeLengths.SwapImproves` | FFmpegInterop/ffmpeg/libavcodec/4xm.c:658-672 | Exchange step: giving the lighter of two symbols the longer word never costs more and keeps the Kraft sum |
| `CodeLengths.MergeStep` | FFmpegInterop/ffmpeg/libavcodec/4xm.c:676-681 | Merging the two lightest symbols costs exactly their weight: every length assignment for the symbols yields one for the merged symbols that is cheaper by at least that |
| `Forests.TwoLeastExist` | FFmpegInterop/ffmpeg/libavcodec/4xm.c:658-674 | With two live nodes the scan finds a unique pair of lightest ones, ties going to the earlier node |
| `Forests.MergePaths` | FFmpegInterop/ffmpeg/libavcodec/4xm.c:676-680 | One merge puts exactly the branch bit 0 or 1 in front of the words below the two merged roots, changes no other word, and moves their roots to the new node |
| `Forests.MergeShape` | FFmpegInterop/ffmpeg/libavcodec/4xm.c:676-681 | Every merge keeps the parent links strictly rising, live nodes as roots, and siblings apart by their flags |
| `HuffmanCode.MergeKeepsInv` | FFmpegInterop/ffmpeg/libavcodec/4xm.c:654-682 | Every merge conserves the live weight, lowers the count of live nodes by one, keeps each root's weight and code space equal to those of the symbols below it, and adds exactly the merged weight to the cost of the words |
| `HuffmanCode.MergesAreLowerBound` | FFmpegInterop/ffmpeg/libavcodec/4xm.c:654-682 | No length assignment within the Kraft inequality is cheaper than the merges that remain, from any state of the loop |
| `HuffmanCode.Optimal` | FFmpegInterop/ffmpeg/libavcodec/4xm.c:654-698 | Optimality: the words the loop assigns take no more bits in total than those of any prefix-free code for the same symbols |
| `HuffmanCode.PrefixIsAncestor` | FFmpegInterop/ffmpeg/libavcodec/4xm.c:684-698 | Below one root only an ancestor's word is a prefix of a node's word, and no symbol is an ancestor |
| `HuffmanCode.KraftSum` | FFmpegInterop/ffmpeg/libavcodec/4xm.c:654-698 | With at most 256 used symbols one root remains and the words fill the code space exactly; with all 257 two roots remain and the Kraft sum is 2 |
| `HuffmanCode.PrefixFreeIff` | FFmpegInterop/ffmpeg/libavcodec/4xm.c:654-698 | The words form a prefix code if and only if at most 256 of the 257 symbols are used |
| `HuffmanDepth.MergeKeepsTall` | FFmpegInterop/ffmpeg/libavcodec/4xm.c:654-682 | Every merge keeps: a live node of height h weighs at least the Fibonacci number F(h + 2), and links climb in height |
| `HuffmanDepth.TableWeight` | FFmpegInterop/ffmpeg/libavcodec/4xm.c:636-656 | A table weighs at most 65281, less than the 256*256 sentinel |
| `HuffmanDepth.WordsAreShort` | FFmpegInterop/ffmpeg/libavcodec/4xm.c:687-694 | No word is longer than 22 bits, for every table that can be read, which answers the source's question whether the overflow can happen |
| `HuffmanDepth.WordsWithin` | FFmpegInterop/ffmpeg/libavcodec/4xm.c:654-698 | A table whose weight is below the Fibonacci number F(n + 3) has no word of more than n bits |
| `HuffmanDepth.UnusedHasNoWord` | FFmpegInterop/ffmpeg/libavcodec/4xm.c:684-698 | A symbol that does not occur gets the empty word |
| `HuffmanTables.ReadWire` | FFmpegInterop/ffmpeg/libavcodec/4xm.c:626-643 | Round trip: reading a written list of frequency runs gives exactly their overlay, later runs over earlier ones, and ends where they end |
| `HuffmanTables.AppliedAt` | FFmpegInterop/ffmpeg/libavcodec/4xm.c:626-643 | Every symbol has the frequency of the last run that covers it, and one that no run covers keeps the one it had |
| `HuffmanTables.EndsInside` | FFmpegInterop/ffmpeg/libavcodec/4xm.c:632-643 | A list of runs is accepted only if it ends within the input |
| `HuffmanTables.ReadFrequencies` | FFmpegInterop/ffmpeg/libavcodec/4xm.c:626-652 | Accepts exactly when the runs and the alignment end within the buffer, and then leaves the frequencies read, with 1 for the end symbol, in the array |
| `HuffmanTables.FindTwoLeast` | FFmpegInterop/ffmpeg/libavcodec/4xm.c:655-674 | The scan returns the two lightest live nodes, the earlier first among equals, or the sentinel exactly if there are not two |
| `HuffmanTables.JoinNodes` | FFmpegInterop/ffmpeg/libavcodec/4xm.c:676-681 | The array assignments of one merge, as a whole |
| `HuffmanTables.MergeNodes` | FFmpegInterop/ffmpeg/libavcodec/4xm.c:654-682 | The loop over the three arrays in place computes the finished forest of the frequencies |
| `HuffmanTables.WalkUp` | FFmpegInterop/ffmpeg/libavcodec/4xm.c:685-697 | The walk up the links collects exactly the number and the length of the symbol's word; the length test fires only beyond 31 bits |
| `HuffmanTables.FillTables` | FFmpegInterop/ffmpeg/libavcodec/4xm.c:684-698 | Every entry of the two tables is the length and the number of its symbol's word, of at most 22 bits, and the overflow branch is dead |
| `HuffmanTables.ReadHuffmanTables` | FFmpegInterop/ffmpeg/libavcodec/4xm.c:610-705 | From the bytes of the stream to the lengths and numbers of the optimal words of the frequencies read; succeeds exactly if the input is not truncated and init_vlc accepts these tables |
| `HuffmanTables.TablesArePrefixCode` | FFmpegInterop/ffmpeg/libavcodec/4xm.c:684-701 | The tables, read most significant bit first, are a prefix code if and only if at most 256 symbols are used |
| `VlcTables.ReadBack` | FFmpegInterop/ffmpeg/libavcodec/bitstream.c:314-325 | The number and the length of a word determine it, read with the most significant bit first |
| `VlcTables.ClashIff` | FFmpegInterop/ffmpeg/libavcodec/bitstream.c:183-233 | When a word entered into nested tables finds an entry in its way: one of the two words is a proper prefix of the other, unless the shorter one was entered first and ends in a table above the other's |
| `VlcTables.EnterAccepts` | FFmpegInterop/ffmpeg/libavcodec/bitstream.c:176-233 | From any state of a table, words are all entered if no two of them, entered ones included, clash |
| `VlcTables.AcceptedPair` | FFmpegInterop/ffmpeg/libavcodec/bitstream.c:176-233 | In a table that was built, of a list in order, no two words clash, at any depth of subtables |
| `VlcTables.BuildIff` | FFmpegInterop/ffmpeg/libavcodec/bitstream.c:157-239 | For a list in order: the tables are built if and only if no two words clash, whatever the lengths |
| `VlcInit.EnteredIs` | FFmpegInterop/ffmpeg/libavcodec/bitstream.c:300-332 | Copying, sorting and copying enter every symbol that has a word exactly once |
| `VlcInit.InitIff` | FFmpegInterop/ffmpeg/libavcodec/bitstream.c:268-351 | init_vlc accepts tables that pass its checks if and only if every word that another word extends is overlooked: it ends in a table above the other's and is entered before it. Holds for every sort that orders the keys |
| `VlcInit.BadWordIsRefused` | FFmpegInterop/ffmpeg/libavcodec/bitstream.c:300-325 | A word of more than 27 bits, or a number that does not fit its length, is refused |
| `VlcInit.ShortsComeLast` | FFmpegInterop/ffmpeg/libavcodec/bitstream.c:329-332 | A word of at most 9 bits is entered after all longer ones, so it is never overlooked |
| `HuffmanAccepted.WordsCanEnter` | FFmpegInterop/ffmpeg/libavcodec/4xm.c:700-701 | The words of every frequency table pass the checks on length and number |
| `HuffmanAccepted.AcceptedIff` | FFmpegInterop/ffmpeg/libavcodec/4xm.c:654-705 | For every frequency table and every sort: the table is accepted if and only if at most 256 symbols are used or one of the 257 was never merged and has no word |
| `HuffmanAccepted.AcceptedByOrder` | FFmpegInterop/ffmpeg/libavcodec/4xm.c:654-705 | In terms of the words: a table is accepted if and only if every word that another word extends is overlooked: it ends in a table above the other's and is entered before it |
| `HuffmanAccepted.AcceptedWhenFree` | FFmpegInterop/ffmpeg/libavcodec/4xm.c:654-705 | Every table with at most 256 used symbols is accepted, and every table with 257 of which one was never merged and has no word |
| `HuffmanAccepted.SomeExtends` | FFmpegInterop/ffmpeg/libavcodec/4xm.c:654-698 | With 257 used symbols that all have words some word extends another: else both trees would have the same words, and the number of symbols would be even |
| `HuffmanAccepted.ShortExtension` | FFmpegInterop/ffmpeg/libavcodec/4xm.c:654-698 | With 257 used symbols a word of at most 18 bits that some word extends is extended by one of at most 18 bits: the two trees would weigh more than a table can |
| `HuffmanAccepted.BareIsHeavy` | FFmpegInterop/ffmpeg/libavcodec/4xm.c:654-698 | With 257 used symbols one that has no word carries at least a third of the weight |
| `HuffmanOrder.MergeKeepsOrdered` | FFmpegInterop/ffmpeg/libavcodec/4xm.c:654-682 | Every merge keeps: nothing merged is heavier than what is merged later or not yet, and merge nodes are merged in the order in which they were made |
| `HuffmanOrder.AtMostTwice` | FFmpegInterop/ffmpeg/libavcodec/4xm.c:654-682 | A merge node weighs at most twice as much as any live node |
| `HuffmanOrder.DepthFalls` | FFmpegInterop/ffmpeg/libavcodec/4xm.c:654-698 | Of two merge nodes the one made later does not lie deeper |
| `HuffmanOrder.DeepIsHeavy` | FFmpegInterop/ffmpeg/libavcodec/4xm.c:654-698 | A node whose symbols all lie n levels below it or deeper weighs at least 2^n |
| `HuffmanOrder.Climb` | FFmpegInterop/ffmpeg/libavcodec/4xm.c:654-682 | Two equally deep nodes in the two trees have ancestors made in turn, whose weights grow like Padovan numbers up to the roots |
| `HuffmanOrder.TwoTrees` | FFmpegInterop/ffmpeg/libavcodec/4xm.c:654-682 | A symbol of one tree and a node of the other at the same depth bound the weight of both trees from below by a Padovan number of that depth |
| `HuffmanBranches.BranchesByWeight` | FFmpegInterop/ffmpeg/libavcodec/4xm.c:654-698 | Of the two children of any node the one whose symbols weigh less, and of two equally heavy ones the earlier, has the word of the node followed by 0, the other the word followed by 1 |
| `HuffmanBranches.MergedInOrder` | FFmpegInterop/ffmpeg/libavcodec/4xm.c:654-682 | What was merged is lighter, by the symbols below it, than anything that was merged later or remains; ties go to the earlier node |
| `HuffmanBranches.MergeKeepsBranched` | FFmpegInterop/ffmpeg/libavcodec/4xm.c:654-682 | Every merge keeps: the lighter child of every node is the zero branch, and whatever was merged was lighter than all that stayed |
| `HuffmanInputs.AllOnesIsRefused` | FFmpegInterop/ffmpeg/libavcodec/4xm.c:610-705 | A concrete input, all 256 values once: read to its end, all 257 symbols used, no prefix code, refused by init_vlc |
| `HuffmanInputs.OneHeavyIsAccepted` | FFmpegInterop/ffmpeg/libavcodec/4xm.c:610-705 | A concrete input, value 0 counted 255 times and the others once: read to its end, all 257 symbols used, value 0 has no word, accepted by init_vlc |
| `BlockCodes.TablesComplete` | FFmpegInterop/ffmpeg/libavcodec/4xm.c:46-68 | All eight code tables are complete prefix codes: any five bits start with the code of exactly one block type, and the lookup finds it |
| `BlockCodes.SplitsLeaveTwoPixels` | FFmpegInterop/ffmpeg/libavcodec/4xm.c:46-75 | A split is coded only where both halves keep at least two pixels, and the literal pair only for two-pixel blocks; so 1x1 is never reached |
| `BlockPlans.ParsedTiles` | FFmpegInterop/ffmpeg/libavcodec/4xm.c:342-425 | Whatever the bits, a block that parses is a tiling of its rectangle by halving, with untouched leaves only from version 2 on |
| `BlockPlans.DrawRows` | FFmpegInterop/ffmpeg/libavcodec/4xm.c:362-368 | Two halves drawn one below the other are the split block drawn in the whole rectangle, and nothing outside it |
| `BlockPlans.DrawColumns` | FFmpegInterop/ffmpeg/libavcodec/4xm.c:369-375 | The same for halves side by side |
| `BlockPlans.StoredOnceOrKept` | FFmpegInterop/ffmpeg/libavcodec/4xm.c:342-425 | In a tiling every pixel is stored exactly once, or kept where a leaf says so |
| `BlockWriter.ReadBack` | FFmpegInterop/ffmpeg/libavcodec/4xm.c:342-425 | Round trip: what is written for a block (the code of its type, then displacement, addend, colour or pixel pair, or its halves in order) is read as this block, to its end; a copy from src is written as an index whose displacement leads from the block to src |
| `BlockWriter.ReadIsWritten` | FFmpegInterop/ffmpeg/libavcodec/4xm.c:342-425 | Conversely everything that is read as a block was written for this block |
| `BlockWriter.GridReadBack` | FFmpegInterop/ffmpeg/libavcodec/4xm.c:480-488 | A frame written strip by strip, block by block, is read as exactly these blocks, each at its place, to the end of what was written |
| `BlockWriter.GridIsWritten` | FFmpegInterop/ffmpeg/libavcodec/4xm.c:480-488 | Every frame that is read was written so |
| `BlockWriter.CodeReadIff` | FFmpegInterop/ffmpeg/libavcodec/4xm.c:354-357 | A block type is read exactly if the bits ahead are its code, whatever follows |
| `BlockWriter.InPictureIff` | FFmpegInterop/ffmpeg/libavcodec/4xm.c:359-420 | The range test accepts a source exactly if its first and its last pixel lie in the last frame |
| `BlockWriter.PairShows` | FFmpegInterop/ffmpeg/libavcodec/4xm.c:287-291 | Two neighbouring pixels of a copy are, as one 32-bit word, those of the source plus twice the addend |
| `BlockWriter.CopyShows` | FFmpegInterop/ffmpeg/libavcodec/4xm.c:294-340 | Without an addend the pixels of a copy are those of the source |
| `BlockWriter.OthersShow` | FFmpegInterop/ffmpeg/libavcodec/4xm.c:294-389 | A one-pixel column adds without a carry, a filled block has one colour, and of a pair the first is the upper or the left pixel |
| `BlockDecoder.PairWord` | FFmpegInterop/ffmpeg/libavcodec/4xm.c:287-291 | The 32-bit multiply-and-add on two neighbouring pixels, as an operation on 16-bit pixels with the carry from the first into the second |
| `BlockDecoder.SourceInside` | FFmpegInterop/ffmpeg/libavcodec/4xm.c:359-420 | A source position the range test accepts keeps the whole rectangle of reads inside the last frame |
| `BlockDecoder.FourXFrame.StorePair` | FFmpegInterop/ffmpeg/libavcodec/4xm.c:287-291 | Stores the two pixels of a word at their places and touches no other |
| `BlockDecoder.FourXFrame.Mcdc` | FFmpegInterop/ffmpeg/libavcodec/4xm.c:294-340 | All rows of a rectangle become the source rectangle plus dc, or dc alone; nothing outside changes; no read leaves the last frame |
| `BlockDecoder.FourXFrame.GetBlockType` | FFmpegInterop/ffmpeg/libavcodec/4xm.c:354-357 | Returns the block type whose code the next bits start with and consumes exactly its length |
| `BlockDecoder.FourXFrame.DecodeLiteral` | FFmpegInterop/ffmpeg/libavcodec/4xm.c:376-389 | A two-pixel block gets the two words that follow, in its own direction |
| `BlockDecoder.FourXFrame.DecodeLeaf` | FFmpegInterop/ffmpeg/libavcodec/4xm.c:391-425 | A block that does not split is drawn as parsed, or fails, with the cursors of the parse, where the parse fails |
| `BlockDecoder.FourXFrame.DecodePBlock` | FFmpegInterop/ffmpeg/libavcodec/4xm.c:342-425 | The recursion in place draws, inside its rectangle only, exactly the tiling that the bits parse to; it ends for every input |
| `BlockDecoder.FourXFrame.DecodeRows` | FFmpegInterop/ffmpeg/libavcodec/4xm.c:362-368 | The upper half, then the lower half from where the first ended; a failure of either is a failure |
| `BlockDecoder.FourXFrame.DecodeColumns` | FFmpegInterop/ffmpeg/libavcodec/4xm.c:369-375 | The left half, then the right half |
| `BlockDecoder.FourXFrame.DecodeStrip` | FFmpegInterop/ffmpeg/libavcodec/4xm.c:480-483 | One strip of 8 rows: all its blocks, in the order coded |
| `BlockDecoder.FourXFrame.DecodePFrame` | FFmpegInterop/ffmpeg/libavcodec/4xm.c:480-488 | On success every pixel of the frame is what the block over it describes, on top of the frame as it was |
| `BlockDecoder.FrameStoredOnce` | FFmpegInterop/ffmpeg/libavcodec/4xm.c:480-488 | Every pixel of a decoded frame was stored exactly once, or left alone from version 2 on |
| `Fragments.FaithfulStep` | FFmpegInterop/ffmpeg/libavcodec/4xm.c:868-914 | A fragment with another id than 0 is handled as if each id had its own buffer: the answer, and what every id holds afterwards |
| `Fragments.ZeroIdIff` | FFmpegInterop/ffmpeg/libavcodec/4xm.c:873-884 | Where the bytes of id 0 lie behind an empty slot, a fragment of id 0 is handled faithfully exactly if it is refused or empty |
| `Fragments.FaithfulIff` | FFmpegInterop/ffmpeg/libavcodec/4xm.c:863-914 | The exact condition for a fragment to be handled faithfully, which can be seen before it is added: its id is not 0, or id 0 is found where its bytes are, or the fragment is refused or empty |
| `Fragments.HarmlessKeepsTidy` | FFmpegInterop/ffmpeg/libavcodec/4xm.c:863-914 | Under that condition the table stays one in which every id has one slot with bytes |
| `Fragments.StreamFaithfulIff` | FFmpegInterop/ffmpeg/libavcodec/4xm.c:863-914 | Over whole streams that find slots: every fragment is handled faithfully if and only if each meets the condition when it comes |
| `Fragments.StreamHolds` | FFmpegInterop/ffmpeg/libavcodec/4xm.c:868-914 | For any interleaving of the fragments of several frames, id 0 included under that condition, each id holds exactly its own bytes since its last whole frame |
| `Fragments.StreamDelivers` | FFmpegInterop/ffmpeg/libavcodec/4xm.c:900-914 | The fragment that makes a frame whole delivers all bytes of its id since the last whole frame, in order; id 0 included |
| `Fragments.NoSlotWhenFullIff` | FFmpegInterop/ffmpeg/libavcodec/4xm.c:873-884 | The table index becomes -1 for a fragment of a stream if and only if 100 other ids are incomplete |
| `Fragments.HundredAndOneFrames` | FFmpegInterop/ffmpeg/libavcodec/4xm.c:880-883 | A concrete stream: the first halves of 101 frames, of which the last finds no slot |
| `Fragments.FrameZeroIsLost` | FFmpegInterop/ffmpeg/libavcodec/4xm.c:873-884 | A concrete stream from the empty table after which frame 0 is complete and not delivered |
| `Fragments.FourXContext.FindSlot` | FFmpegInterop/ffmpeg/libavcodec/4xm.c:873-878 | The search finds the first slot with the id, or the last empty one |
| `Fragments.FourXContext.AddFragment` | FFmpegInterop/ffmpeg/libavcodec/4xm.c:863-914 | The slot table in place after one fragment, and what is returned |
| `BsfPump.FeedAppend` | FFmpegInterop/ffmpeg/fftools/ffmpeg.c:859-884 | Carrying two lists of items through the chain is carrying the one and then the other from the states it left |
| `BsfPump.StageFirst` | FFmpegInterop/ffmpeg/fftools/ffmpeg.c:859-884 | Passing single items all the way down is the same as running one filter to its end first |
| `BsfPump.FeedIsComposition` | FFmpegInterop/ffmpeg/fftools/ffmpeg.c:852-884 | The depth-first order of the pump writes exactly what the composed filters produce, for packets and for the end of the stream |
| `BsfPump.CallsAreComposition` | FFmpegInterop/ffmpeg/fftools/ffmpeg.c:846-895 | Over a whole stream of calls, what is written is the composed filters' output of the whole stream |
| `BsfPump.HandDown` | FFmpegInterop/ffmpeg/fftools/ffmpeg.c:862-879 | One round that hands an item to the next filter takes exactly that off what is still owed |
| `BsfPump.HandOut` | FFmpegInterop/ffmpeg/fftools/ffmpeg.c:880-883 | One round that writes a packet takes exactly that packet off what is still owed |
| `BsfPump.EndIsLast` | FFmpegInterop/ffmpeg/fftools/ffmpeg.c:868-881 | When the end leaves the last filter, nothing is owed and every filter is drained |
| `BsfPump.OutputStream.SendPacket` | FFmpegInterop/ffmpeg/fftools/ffmpeg.c:873-877 | A drained filter takes the item and holds what it produces |
| `BsfPump.OutputStream.ReceivePacket` | FFmpegInterop/ffmpeg/fftools/ffmpeg.c:862-871 | A packet, a call for more input or the end, as the filter holds one, is waiting, or has ended |
| `BsfPump.OutputStream.Pump` | FFmpegInterop/ffmpeg/fftools/ffmpeg.c:859-884 | The loop ends (its rounds are bounded by what is owed), leaves every filter drained and writes exactly what was owed, in order |
| `BsfPump.OutputStream.OutputPacket` | FFmpegInterop/ffmpeg/fftools/ffmpeg.c:846-895 | One call leaves every filter drained and writes exactly the composed filters' output for the packet or the end |
| `VideoSync.PlanIsSane` | FFmpegInterop/ffmpeg/fftools/ffmpeg.c:1167-1168 | Never more frames planned than -frames leaves, and never more repeats than frames |
| `VideoSync.EmitEmits` | FFmpegInterop/ffmpeg/fftools/ffmpeg.c:1197-1342 | The loop raises clock and frame count by one for each frame, stamps the frames with consecutive times and changes nothing else |
| `VideoSync.EmitAllIff` | FFmpegInterop/ffmpeg/fftools/ffmpeg.c:1197-1218 | The loop reaches its end if and only if the last frame lies within the recording time and a flush finds a stored frame |
| `VideoSync.BalancedIff` | FFmpegInterop/ffmpeg/fftools/ffmpeg.c:1167-1352 | One call keeps sent = received - dropped + duplicated - held back if and only if all planned frames can be sent, or an excessive plan is skipped for a new picture while no dropped frame is being written off |
| `VideoSync.AlwaysBalancedIff` | FFmpegInterop/ffmpeg/fftools/ffmpeg.c:1167-1352 | Over a whole run the balance holds after every call if and only if every call meets that condition |
| `VideoSync.StaysSane` | FFmpegInterop/ffmpeg/fftools/ffmpeg.c:1167-1338 | The frame count counts the frames sent and never passes -frames |
| `VideoSync.ClockNeverBack` | FFmpegInterop/ffmpeg/fftools/ffmpeg.c:1094-1165 | In CFR, VSCFR and VFR mode the sync logic never turns the clock back |
| `VideoSync.TickingIff` | FFmpegInterop/ffmpeg/fftools/ffmpeg.c:1094-1332 | One call keeps the encoder's timestamps increasing if and only if the plan does not set the clock back behind a frame already sent |
| `VideoSync.RunBalanced` | FFmpegInterop/ffmpeg/fftools/ffmpeg.c:1167-1352 | In such a run nothing is missing at the end, with the frame held back counted by the last report |
| `VideoSync.SkippedFlushIsUnbalanced` | FFmpegInterop/ffmpeg/fftools/ffmpeg.c:1167-1195 | A concrete run from a fresh stream, two pictures far ahead and the flush, that loses the balance |
| `VideoSync.RunTicks` | FFmpegInterop/ffmpeg/fftools/ffmpeg.c:1094-1352 | Over every run in the three modes, whatever it skips or stops, the encoder's timestamps strictly increase and the frame limit holds |
| `VideoSync.OtherModesFollowPictures` | FFmpegInterop/ffmpeg/fftools/ffmpeg.c:1158-1161 | In the two other modes a picture keeps the timestamps increasing if and only if its rounded time lies behind the last frame |
| `VideoSync.PassthroughCanGoBack` | FFmpegInterop/ffmpeg/fftools/ffmpeg.c:1158-1161 | A concrete run from a fresh stream in passthrough mode in which the timestamps decrease |
| `VideoTimes.VfrPicture` | FFmpegInterop/ffmpeg/fftools/ffmpeg.c:1094-1165 | VFR: a picture is sent once unless it ends 0.6 or more before the clock (or the frame limit or recording time is reached); if it ends more than 0.6 after the clock, its timestamp is the nearest to the later of its time and the clock, else the clock |
| `VideoTimes.ConstantPicture` | FFmpegInterop/ffmpeg/fftools/ffmpeg.c:1094-1195 | CFR and VSCFR: given room, n frames from the clock on, the first r of them repeats; n brings the clock to within 0.5 after and 2.1 before the picture's end, the nearest if more than one is needed; r brings it to between 1.1 and 0.1 before the picture; too large an n sends nothing |
| `VideoTimes.FreePicture` | FFmpegInterop/ffmpeg/fftools/ffmpeg.c:1158-1161 | In the other two modes every picture is sent with the timestamp nearest to its time |
| `VideoTimes.FlushRepeats` | FFmpegInterop/ffmpeg/fftools/ffmpeg.c:1088-1092 | The flush repeats the last frame as often as the middle one of the last three calls did |
| `VideoTimes.PlanCarried` | FFmpegInterop/ffmpeg/fftools/ffmpeg.c:1167-1352 | A plan with room is carried out in full: consecutive timestamps from the clock on, the repeats first, the history and the held-back picture updated |
| `VideoTimes.RunStaysWithinTime` | FFmpegInterop/ffmpeg/fftools/ffmpeg.c:897-908 | No run sends a frame at or after the end of the recording time |
| `VideoSync.OutputStream.Synchronise` | FFmpegInterop/ffmpeg/fftools/ffmpeg.c:1093-1165 | The sync decision for a picture, with its effect on the clock |
| `VideoSync.OutputStream.MakePlan` | FFmpegInterop/ffmpeg/fftools/ffmpeg.c:1088-1180 | How many frames to send and to repeat, the history of the last three plans, and the drop counter |
| `VideoSync.OutputStream.SendFrames` | FFmpegInterop/ffmpeg/fftools/ffmpeg.c:1197-1342 | The loop over the frames, with its early returns |
| `VideoSync.OutputStream.DoVideoOut` | FFmpegInterop/ffmpeg/fftools/ffmpeg.c:1088-1352 | The whole state of the stream after a call |
| `MuxTimestamps.GuessIsMedian` | FFmpegInterop/ffmpeg/fftools/ffmpeg.c:770-773 | Sum minus least minus greatest is the median of the three |
| `MuxTimestamps.RepairedInOrder` | FFmpegInterop/ffmpeg/fftools/ffmpeg.c:761-798 | A packet with a DTS leaves the repair with a DTS after the last one (not before it for a non-strict muxer) and no PTS before its DTS |
| `MuxTimestamps.RunInOrder` | FFmpegInterop/ffmpeg/fftools/ffmpeg.c:703-822 | Over whole runs, packets parked before the header included, the muxer sees DTS strictly increasing (never decreasing if non-strict) and PTS >= DTS where set |
| `MuxTimestamps.MissingDtsBreaksOrder` | FFmpegInterop/ffmpeg/fftools/ffmpeg.c:775-798 | A concrete run in which a packet without DTS lets the next DTS go back |
| `MuxTimestamps.KeepsOrderIff` | FFmpegInterop/ffmpeg/fftools/ffmpeg.c:735-798 | Where packets may lack a DTS, one packet keeps the DTS that are set in order if and only if it has none, or the packet before it has one, or none before has one, or its own (the lesser of its timestamps if they contradict) follows the newest one |
| `MuxTimestamps.RunInOrderIff` | FFmpegInterop/ffmpeg/fftools/ffmpeg.c:703-822 | Over whole runs, parked packets included, the DTS that are set reach the muxer in order if and only if every packet handed on meets that condition |
| `MuxTimestamps.FlushedWhole` | FFmpegInterop/ffmpeg/fftools/ffmpeg.c:3011-3015 | The flush hands on all parked packets, in order |
| `MuxTimestamps.RunLosesNothing` | FFmpegInterop/ffmpeg/fftools/ffmpeg.c:703-733 | While the program runs, the packets handed on and those parked are, in order, those submitted up to the frame limit |
| `MuxRepairs.InOrderIsKept` | FFmpegInterop/ffmpeg/fftools/ffmpeg.c:735-821 | A packet whose DTS follows the last one and does not exceed its PTS, or any packet where the muxer ignores timestamps, is handed on with exactly its rescaled timestamps |
| `MuxRepairs.BehindIsRaised` | FFmpegInterop/ffmpeg/fftools/ffmpeg.c:775-798 | If only the DTS lies behind, it becomes the least allowed and a PTS that is set the greater of itself and that, or the program ends under -xerror |
| `MuxRepairs.ContradictionIsMedian` | FFmpegInterop/ffmpeg/fftools/ffmpeg.c:763-798 | If PTS and DTS contradict, both become the median of the two and the last DTS plus one, or the least allowed if that lies behind |
| `MuxRepairs.RunLeavesUntouched` | FFmpegInterop/ffmpeg/fftools/ffmpeg.c:703-822 | Over every run in which no timestamp needs repair, the packets handed on and those still parked are the packets submitted, rescaled and otherwise unchanged |
| `MuxRepairs.ParkedUpToMaximum` | FFmpegInterop/ffmpeg/fftools/ffmpeg.c:713-733 | Before the header a packet is parked unless the queue holds its maximum; then the program ends |
| `MuxTimestamps.OutputStream.RepairTimestamps` | FFmpegInterop/ffmpeg/fftools/ffmpeg.c:735-797 | The repair of one packet; with -xerror it ends the program exactly where the DTS would have to be changed |
| `MuxTimestamps.OutputStream.WritePacket` | FFmpegInterop/ffmpeg/fftools/ffmpeg.c:703-822 | The whole state after a packet: counted, parked in the growing queue, repaired, handed on, or the program ended |
| `MuxTimestamps.OutputStream.WriteHeader` | FFmpegInterop/ffmpeg/fftools/ffmpeg.c:2996-3015 | The header opens the way and the parked packets go first |
| `Avcc.RewritesIff` | FFmpegInterop/FFmpegInterop/Source/H264AVCSampleProvider.cpp:132-173 | The rewriting succeeds exactly on nonempty concatenations of units with 4-byte lengths, and then writes start code and unit for each, as long as the input |
| `Avcc.SameLength` | FFmpegInterop/FFmpegInterop/Source/H264AVCSampleProvider.cpp:132-173 | Start codes are as long as the length fields they replace |
| `Avcc.UnitsAreInput` | FFmpegInterop/FFmpegInterop/Source/H264AVCSampleProvider.cpp:149-170 | An accepted packet is the length-prefixed form of exactly the units read from it |
| `Avcc.SplitRecovers` | FFmpegInterop/FFmpegInterop/Source/H264AVCSampleProvider.cpp:152-168 | Cutting the written stream at its start codes gives the units back if none contains a start code |
| `Avcc.SplitIff` | FFmpegInterop/FFmpegInterop/Source/H264AVCSampleProvider.cpp:152-168 | It gives them back only then |
| `Avcc.GuardsDecide` | FFmpegInterop/FFmpegInterop/Source/H264AVCSampleProvider.cpp:142-164 | The wrapping 32-bit guards together decide the unbounded comparison, for all values |
| `Avcc.ParameterSetsIff` | FFmpegInterop/FFmpegInterop/Source/H264AVCSampleProvider.cpp:55-130 | From a configuration record with any numbers of SPS and PPS, all nonempty and free of start codes, exactly these are written if and only if there is one of each and both are shorter than 256 bytes |
| `Avcc.OneOfEach` | FFmpegInterop/FFmpegInterop/Source/H264AVCSampleProvider.cpp:55-130 | One SPS and one PPS shorter than 256 bytes are written as they are, whatever their bytes |
| `Avcc.KeyFrameSample` | FFmpegInterop/FFmpegInterop/Source/H264AVCSampleProvider.cpp:36-53 | A key frame becomes one byte stream that starts with the record's SPS and PPS |
| `Avcc.OtherSample` | FFmpegInterop/FFmpegInterop/Source/H264AVCSampleProvider.cpp:36-53 | Any other frame becomes its own units alone, and a packet that is no list of units fails |
| `Avcc.CutRecordFails` | FFmpegInterop/FFmpegInterop/Source/H264AVCSampleProvider.cpp:55-130 | A record that ends before its PPS does is refused, with the SPS written if that is complete |
| `Avcc.SampleProvider.WriteUnit` | FFmpegInterop/FFmpegInterop/Source/H264AVCSampleProvider.cpp:142-169 | One round of the loop: the unit read and written, or what was written before the failure |
| `Avcc.SampleProvider.WriteNALPacket` | FFmpegInterop/FFmpegInterop/Source/H264AVCSampleProvider.cpp:132-173 | The loop writes and returns exactly what the specification says, also on malformed packets |
| `Avcc.SampleProvider.GetSPSAndPPSBuffer` | FFmpegInterop/FFmpegInterop/Source/H264AVCSampleProvider.cpp:55-130 | What is written and returned for every extra data, short ones included |
| `Avcc.SampleProvider.WriteAVPacketToStream` | FFmpegInterop/FFmpegInterop/Source/H264AVCSampleProvider.cpp:36-53 | Parameter sets first for key frames, then the packet, with the first failure ending it |
| `Demux.ReadConserves` | FFmpegInterop/FFmpegInterop/Source/FFmpegReader.cpp:37-67 | A read keeps both providers in order and every packet accounted for |
| `Demux.PopConserves` | FFmpegInterop/FFmpegInterop/Source/MediaSampleProvider.cpp:146-162 | So does taking a packet from a queue |
| `Demux.FlushConserves` | FFmpegInterop/FFmpegInterop/Source/MediaSampleProvider.cpp:239-247 | So does a flush, which leaves the queue empty |
| `Demux.SwitchConserves` | FFmpegInterop/FFmpegInterop/Source/MediaSampleProvider.cpp:249-260 | So does enabling, and disabling a provider with an empty queue |
| `Demux.NextPacketConserves` | FFmpegInterop/FFmpegInterop/Source/MediaSampleProvider.cpp:164-213 | So does a request that reads, pops, skips broken packets or gives up |
| `Demux.RunConserves` | FFmpegInterop/FFmpegInterop/Source/MediaSampleProvider.cpp:132-260 | Under any interleaving of requests: per provider, packets popped then queued are in order those of its stream read since the last flush while enabled; each packet read is in exactly one of popped, queued, released and ignored; a disabled provider's queue is empty |
| `Demux.FromStart` | FFmpegInterop/FFmpegInterop/Source/MediaSampleProvider.cpp:132-260 | All this holds from the start on, whatever the demuxer answers and whatever is asked |
| `DemuxRoutes.RunDeliversOwn` | FFmpegInterop/FFmpegInterop/Source/FFmpegReader.cpp:37-67 | Over every run: what a provider popped and has queued are exactly the packets of its own stream read since its last flush while enabled; a stream both want goes to the audio |
| `DemuxRoutes.NextPacketIff` | FFmpegInterop/FFmpegInterop/Source/MediaSampleProvider.cpp:164-213 | A request succeeds exactly if one of the packets ahead completes and all before it are passed over: partial ones always, broken ones only as one of the first ten and if allowed; the packets behind it stay ahead |
| `DemuxRoutes.SampleIff` | FFmpegInterop/FFmpegInterop/Source/MediaSampleProvider.cpp:68-99 | A sample is given exactly if the provider is enabled and such a packet can be written out; otherwise an enabled provider is disabled and emptied |
| `Demux.MediaSampleProvider.QueuePacket` | FFmpegInterop/FFmpegInterop/Source/MediaSampleProvider.cpp:132-144 | Queues the packet if enabled, else releases it |
| `Demux.MediaSampleProvider.PopPacket` | FFmpegInterop/FFmpegInterop/Source/MediaSampleProvider.cpp:146-162 | First in, first out; a blank packet from an empty queue |
| `Demux.MediaSampleProvider.Flush` | FFmpegInterop/FFmpegInterop/Source/MediaSampleProvider.cpp:239-247 | Releases every queued packet and marks a discontinuity |
| `Demux.FFmpegReader.Read` | FFmpegInterop/FFmpegInterop/Source/FFmpegReader.cpp:37-67 | The packet goes to the provider of its stream, the audio provider first, or is ignored |
| `Demux.FFmpegReader.FillQueue` | FFmpegInterop/FFmpegInterop/Source/MediaSampleProvider.cpp:180-189 | Reads until the queue has a packet or reading fails; it ends |
| `Demux.FFmpegReader.GetNextPacket` | FFmpegInterop/FFmpegInterop/Source/MediaSampleProvider.cpp:164-213 | The state after a request for a packet, with up to ten broken ones skipped |
| `Demux.FFmpegReader.DisableStream` | FFmpegInterop/FFmpegInterop/Source/MediaSampleProvider.cpp:249-254 | Flushes, then refuses further packets |
| `Demux.FFmpegReader.EnableStream` | FFmpegInterop/FFmpegInterop/Source/MediaSampleProvider.cpp:256-260 | Takes packets again |
| `Demux.FFmpegReader.GetNextSample` | FFmpegInterop/FFmpegInterop/Source/MediaSampleProvider.cpp:68-99 | A sample, or the stream disabled |
| `AudioSamples.DecodeAppend` | FFmpegInterop/FFmpegInterop/Source/UncompressedSampleProvider.cpp:88-123 | Decoding two lists of packets one after the other gives the PCM of their concatenation |
| `AudioSamples.PullDecodes` | FFmpegInterop/FFmpegInterop/Source/MediaSampleProvider.cpp:178-213 | A packet request yields exactly the PCM of the packets it decodes, and uses up the source |
| `AudioSamples.CollectDecodes` | FFmpegInterop/FFmpegInterop/Source/UncompressedAudioSampleProvider.cpp:126-147 | The bytes collected for a sample are exactly the PCM of its packets, and span at least 2000000 units unless a read failed |
| `AudioSamples.AllDeliveredIff` | FFmpegInterop/FFmpegInterop/Source/UncompressedAudioSampleProvider.cpp:110-177 | Over a whole run the samples concatenate to all PCM decoded, in order, if and only if no request decodes PCM whose packets all have time -1 |
| `AudioSamples.NoSampleIff` | FFmpegInterop/FFmpegInterop/Source/UncompressedAudioSampleProvider.cpp:121-173 | A request ends without a sample if and only if every packet in it that gave frames has time -1, the value taken for no time |
| `AudioSamples.MinusOneIsLost` | FFmpegInterop/FFmpegInterop/Source/UncompressedAudioSampleProvider.cpp:138-173 | A concrete stream whose first time is -1: decoded PCM is lost and the stream disabled |
| `AudioTimes.PullIsTimed` | FFmpegInterop/FFmpegInterop/Source/MediaSampleProvider.cpp:178-213 | A request decodes packets up to the first that gives frames, and takes the time of its last frame that has one, or of the packet |
| `AudioTimes.SampleTime` | FFmpegInterop/FFmpegInterop/Source/UncompressedAudioSampleProvider.cpp:121-173 | The time of a sample is the first time of its packets that does not scale to -1, counted from the start of the clock |
| `AudioTimes.ClockStays` | FFmpegInterop/FFmpegInterop/Source/MediaSampleProvider.cpp:218-226 | The clock starts at the first time there is, or at zero if that is negative, and never changes |
| `AudioTimes.NoLongerThanNeeded` | FFmpegInterop/FFmpegInterop/Source/UncompressedAudioSampleProvider.cpp:126-147 | A sample consists of just as many packets as reach the minimum duration |
| `AudioSamples.UncompressedAudioSampleProvider.GetFrameFromFFmpegDecoder` | FFmpegInterop/FFmpegInterop/Source/UncompressedSampleProvider.cpp:36-86 | Sends a packet if given one, takes one frame; refused only if frames wait |
| `AudioSamples.UncompressedAudioSampleProvider.DecodeAVPacket` | FFmpegInterop/FFmpegInterop/Source/UncompressedSampleProvider.cpp:88-123 | From a drained decoder the packet is never refused, all its PCM is written in order, and the decoder is drained again; the time is that of the last frame with one |
| `AudioSamples.UncompressedAudioSampleProvider.DecodeNext` | FFmpegInterop/FFmpegInterop/Source/MediaSampleProvider.cpp:178-213 | One turn of the loop over packets |
| `AudioSamples.UncompressedAudioSampleProvider.GetNextPacket` | FFmpegInterop/FFmpegInterop/Source/MediaSampleProvider.cpp:164-237 | The state, the PCM written, and time and duration relative to the start of the stream |
| `AudioSamples.UncompressedAudioSampleProvider.GetNextSample` | FFmpegInterop/FFmpegInterop/Source/UncompressedAudioSampleProvider.cpp:110-177 | The sample, or none with the stream disabled, and the state after it |
| `Mft.StepConserves` | DecoderAppService/FFmpegDecoderMFT.cpp:60-271 | Every call puts the samples it makes at the end of the queue and takes what it is done with from its front; a context is never rebuilt over queued samples |
| `Mft.RunConserves` | DecoderAppService/FFmpegDecoderMFT.cpp:60-271 | Over whole runs the samples made are, in order, those that left the queue and those still in it |
| `Mft.LosslessIff` | DecoderAppService/FFmpegDecoderMFT.cpp:229-254 | All samples that left the queue were delivered if and only if no call of the run is a flush, start or shutdown over queued samples, or an output whose copy fails |
| `Mft.DeliveredInOrder` | DecoderAppService/FFmpegDecoderMFT.cpp:60-271 | Without such a call the samples delivered are those made, in order, up to what is still queued |
| `Mft.RunConsistent` | DecoderAppService/FFmpegDecoderMFT.cpp:85-106 | In every run, queued samples were all decoded under one input type, and if that is not the type set, a rebuild is pending |
| `Mft.DecodedUnderCurrentType` | DecoderAppService/FFmpegDecoderMFT.cpp:88-106 | A sample is decoded only under the input type set last |
| `Mft.SettlesIff` | DecoderAppService/FFmpegDecoderMFT.cpp:196-271 | The exact number of valid ProcessOutput calls after which draining and both format-change flags are clear: max(1, n) for n queued samples, one more for a format change of the context |
| `MftDecoder.RunFrames` | DecoderAppService/FFmpegContext.cpp:124-286 | Over whole runs the frames the decoder owes for the packets it accepted are, in order, those that left it, queued or lost, and those still in it |
| `MftDecoder.FlagIff` | DecoderAppService/FFmpegDecoderMFT.cpp:60-271 | Four conditions of the transform are each on exactly if a call set it and none since has cleared it: the decoder is behind, its slot is taken, an output type is missing, output is wanted first |
| `MftDecoder.RefusedIff` | DecoderAppService/FFmpegContext.cpp:133-139 | Over whole runs: a packet that reaches the decoder is refused if and only if, since the decoder was opened, a packet gave a second frame and another packet was accepted after it |
| `MftDecoder.PromptIff` | DecoderAppService/FFmpegContext.cpp:124-286 | After every call of a run all frames owed so far are queued if and only if no accepted packet gives a second frame or fails with its first, and the decoder is closed (drain, flush, start, rebuild, shutdown) only when it owes nothing |
| `MftDecoder.AllReachedIff` | DecoderAppService/FFmpegDecoderMFT.cpp:60-271 | After every call all frames owed so far have been delivered or are queued, in order, if and only if that holds and no call throws queued samples away |
| `MftDecoder.ThirdPacketIsRefused` | DecoderAppService/FFmpegContext.cpp:133-139 | A concrete run: with two frames to a packet the third packet is refused |
| `MftDecoder.DrainLosesFrame` | DecoderAppService/FFmpegContext.cpp:236-267 | A concrete run: a drain discards the frame the decoder holds back |
| `MftDecoder.NullTypeIff` | DecoderAppService/FFmpegDecoderMFT.cpp:215-222 | Over whole runs: a valid ProcessOutput call uses a null output type if and only if that type was cleared while a stream change was due, and not set again since |
| `MftDecoder.TurnedAwayIff` | DecoderAppService/FFmpegDecoderMFT.cpp:85-106 | Over whole runs: valid input is turned away if and only if a drain or a new type came since the last sample was taken, a stream change is due, or initialising finds one |
| `MftResults.OutputAnswers` | DecoderAppService/FFmpegDecoderMFT.cpp:196-271 | Over whole runs, for every valid output call: the stream change exactly if one is due, a call for input exactly if all samples made have left, Ok exactly if the oldest sample left is delivered, Fail exactly if its copy fails |
| `MftResults.InputAnswers` | DecoderAppService/FFmpegDecoderMFT.cpp:60-110 | Over whole runs, for every valid input call: Ok exactly if one sample was made and queued, False exactly if the decoder took the packet and has no frame to give |
| `MftResults.OtherAnswersIff` | DecoderAppService/FFmpegDecoderMFT.cpp:85-108 | When valid input is answered with a shutdown, a missing type or a failure |
| `MftResults.InvalidCalls` | DecoderAppService/FFmpegDecoderMFT.cpp:60-83 | Calls that are not in order change nothing and say why |
| `MftResults.NoPacketFails` | DecoderAppService/FFmpegDecoderMFT.cpp:101-108 | A sample that gives no packet is never accepted |
| `MftResults.TypeAnswers` | DecoderAppService/DecoderBase.cpp:594-717 | A request for a type sets it and asks for a new decoder, unless it fails or is only a test, when it changes nothing |
| `MftResults.MessageAnswers` | DecoderAppService/FFmpegDecoderMFT.cpp:129-185 | What a drain, the end and the start of a stream answer and set |
| `MftResults.BeginsAnew` | DecoderAppService/FFmpegDecoderMFT.cpp:116-185 | After a drain, a flush or the start of a stream the decoder begins anew; a shutdown drops types and samples as well |
| `Mft.FFmpegContext.Initialize` | DecoderAppService/FFmpegContext.cpp:51-121 | What a context is after initialising, also where it fails half way |
| `Mft.FFmpegContext.QueueOutput` | DecoderAppService/FFmpegContext.cpp:289-293 | Adding at the head of the list is joining the end of the line |
| `Mft.FFmpegContext.SendPacket` | FFmpegInterop/ffmpeg/libavcodec/decode.c:677-711 | A packet is decoded once all frames of those before were received, waits in the one slot before that, and is refused while the slot is taken |
| `Mft.FFmpegContext.ReceiveFrame` | FFmpegInterop/ffmpeg/libavcodec/decode.c:740-769 | The next frame, or none |
| `Mft.FFmpegContext.FlushInput` | DecoderAppService/FFmpegContext.cpp:237-267 | The decoder is opened anew; what it still had is gone |
| `Mft.FFmpegContext.Decode` | DecoderAppService/FFmpegContext.cpp:124-204 | Nothing is decoded while a format change is due; else the packet is sent, or refused, and at most one frame is received and queued |
| `Mft.FFmpegContext.GetNextSample` | DecoderAppService/FFmpegContext.cpp:213-234 | The oldest sample, from the tail of the list, or a call for input |
| `Mft.FFmpegContext.HasFormatChange` | DecoderAppService/FFmpegContext.cpp:334-339 | Reports and clears |
| `Mft.FFmpegContext.Flush` | DecoderAppService/FFmpegContext.cpp:274-286 | The loop empties the queue, and the decoder is opened anew |
| `Mft.FFmpegDecoderMFT.ProcessInput` | DecoderAppService/FFmpegDecoderMFT.cpp:60-110 | Result and state for every input call, refused ones included |
| `Mft.FFmpegDecoderMFT.StartStream` | DecoderAppService/FFmpegDecoderMFT.cpp:116-126 | Drops the queue and what the decoder holds, and streams |
| `Mft.FFmpegDecoderMFT.ProcessMessage` | DecoderAppService/FFmpegDecoderMFT.cpp:129-185 | Result and state for every message; drain, flush and start close the decoder over what it holds |
| `Mft.FFmpegDecoderMFT.ProcessOutput` | DecoderAppService/FFmpegDecoderMFT.cpp:196-271 | Result, sample delivered and state for every call, with draining ended and the context rebuilt only over an empty queue |
| `Mft.FFmpegDecoderMFT.SetInputType` | DecoderAppService/DecoderBase.cpp:594-650 | Result and state; a type that is set asks for a rebuild |
| `Mft.FFmpegDecoderMFT.SetOutputType` | DecoderAppService/DecoderBase.cpp:659-717 | Result and state; the input type comes first |
| `Mft.FFmpegDecoderMFT.Shutdown` | DecoderAppService/DecoderBase.cpp:139-183 | Drops types, context and queue, once |
| `CommandLine.Find` | FFmpegInterop/ffmpeg/fftools/cmdutils.c:218-229 | An option of that name in the table, or none has it |
| `CommandLine.MatchGroup` | FFmpegInterop/ffmpeg/fftools/cmdutils.c:642-654 | The first group with that separator, or no group has it |
| `CommandLine.LexSpells` | FFmpegInterop/ffmpeg/fftools/cmdutils.c:766-848 | Reading loses nothing: the tokens of an accepted command line spell exactly its arguments, those of a refused one the arguments before the error |
| `CommandLine.AfterDashesIff` | FFmpegInterop/ffmpeg/fftools/cmdutils.c:773-782 | In the tokens of every command line: wherever a `--` is read as such, the argument after it is read as a file name if and only if it is not itself `--`, and as `--` otherwise |
| `CommandLine.DashesThenFile` | FFmpegInterop/ffmpeg/fftools/cmdutils.c:773-782 | After any number of `--` the first other argument is a file name |
| `CommandLine.SecondDashesAreNoFile` | FFmpegInterop/ffmpeg/fftools/cmdutils.c:773-776 | A concrete command line in which the argument after `--` is no file name |
| `CommandLine.FileIff` | FFmpegInterop/ffmpeg/fftools/cmdutils.c:777-782 | An argument is a file exactly if it does not begin with a dash, is a dash alone, or follows the last `--` read |
| `CommandLine.SeparatorTakesNext` | FFmpegInterop/ffmpeg/fftools/cmdutils.c:794-801 | A group separator takes the next argument, for the first group of that name |
| `CommandLine.PlainIsOne` | FFmpegInterop/ffmpeg/fftools/cmdutils.c:803-819 | An option of the table without an argument has the value 1 |
| `CommandLine.ArgumentIsValue` | FFmpegInterop/ffmpeg/fftools/cmdutils.c:803-819 | An option with an argument has the next one as its value |
| `CommandLine.LibraryTakesNext` | FFmpegInterop/ffmpeg/fftools/cmdutils.c:821-834 | An option a library takes is read with the next argument; what it refuses ends reading |
| `CommandLine.IsGlobalIff` | FFmpegInterop/ffmpeg/fftools/cmdutils.c:693-703 | An option is global unless it is per file, may have a stream specifier, or sets a field of the per-file options |
| `CommandLine.NegatedIsZero` | FFmpegInterop/ffmpeg/fftools/cmdutils.c:836-844 | "no" before the name of a switch gives it the value 0, unless the whole is a name itself |
| `CommandLine.GroupedAsRead` | FFmpegInterop/ffmpeg/fftools/cmdutils.c:662-703 | Each finished group holds, in order, exactly the per-file options and library options since the previous group and stands in the list of its kind in order; the rest is in the current group; the others are global |
| `CommandLine.Partition` | FFmpegInterop/ffmpeg/fftools/cmdutils.c:662-703 | The options of all places together are, as a multiset, the options read |
| `CommandLine.OccursOnce` | FFmpegInterop/ffmpeg/fftools/cmdutils.c:693-703 | Every tabled option occurrence is in exactly one place: global, one finished group or the current group; global exactly if it is not per file |
| `CommandLine.OptionParseContext.FinishGroup` | FFmpegInterop/ffmpeg/fftools/cmdutils.c:662-688 | The current group moves to the list of its kind and a new one begins |
| `CommandLine.OptionParseContext.AddOpt` | FFmpegInterop/ffmpeg/fftools/cmdutils.c:693-703 | The option joins the global ones or the current group |
| `CommandLine.OptionParseContext.SplitOption` | FFmpegInterop/ffmpeg/fftools/cmdutils.c:783-847 | One argument that starts with a dash: separator, tabled option, library option, negated flag, or error, in this order |
| `CommandLine.OptionParseContext.SplitCommandline` | FFmpegInterop/ffmpeg/fftools/cmdutils.c:753-857 | The context holds what the tokens come to, also where an error ends the loop |
| `PlanarRle.InitDisjoint` | FFmpegInterop/ffmpeg/libavcodec/8bps.c:145-182 | Every accepted depth gives each plane a byte of the pixel of its own |
| `PlanarRle.ColoursIff` | FFmpegInterop/ffmpeg/libavcodec/8bps.c:157-180 | Every pixel shows the values of its planes, whatever they are, if and only if it is not 24 bits decoded into 32 on a big-endian machine |
| `PlanarRle.RunRow` | FFmpegInterop/ffmpeg/libavcodec/8bps.c:93-120 | Whatever the code, a row gets no more pixels than fit and reading does not go back |
| `PlanarRle.RowExpands` | FFmpegInterop/ffmpeg/libavcodec/8bps.c:93-120 | A row whose length and code agree is taken apart into exactly its run-length expansion |
| `PlanarRle.PlanesExpand` | FFmpegInterop/ffmpeg/libavcodec/8bps.c:83-122 | A packet with consistent row lengths is accepted, and each row of each plane is the expansion of its own code |
| `PlanarRle.FrameHoldsPlanes` | FFmpegInterop/ffmpeg/libavcodec/8bps.c:76-122 | For consistent packets the frame is the interleaving: pixel k of a plane's row stands at byte planemap + k * px_inc of that row |
| `PlanarRle.OtherBytesKept` | FFmpegInterop/ffmpeg/libavcodec/8bps.c:76-122 | Every other byte of the frame keeps its value |
| `PlanarWriter.PacketReadBack` | FFmpegInterop/ffmpeg/libavcodec/8bps.c:76-122 | Round trip: a packet written as 16-bit lengths, high byte first, and the rows' codes is accepted, and every row is read as it was written |
| `PlanarWriter.FrameShowsWritten` | FFmpegInterop/ffmpeg/libavcodec/8bps.c:76-122 | And the frame shows it at the bytes of its planes |
| `PlanarWriter.RowIsRuns` | FFmpegInterop/ffmpeg/libavcodec/8bps.c:93-120 | Whatever the bytes, a row is a list of runs that fit, up to where the counter is down, a run does not fit, or the bytes end, when the packet is refused |
| `PlanarRle.EightBpsContext.StoreRun` | FFmpegInterop/ffmpeg/libavcodec/8bps.c:105-117 | The pixel loop stores a literal or repeated run in this row, at this plane's bytes only |
| `PlanarRle.EightBpsContext.DecodeRun` | FFmpegInterop/ffmpeg/libavcodec/8bps.c:95-119 | One turn of the row loop, with the length counted down in 32 bits |
| `PlanarRle.EightBpsContext.DecodeRow` | FFmpegInterop/ffmpeg/libavcodec/8bps.c:89-120 | One row, for every input; no other row changes although the end pointer is offset |
| `PlanarRle.EightBpsContext.DecodePlane` | FFmpegInterop/ffmpeg/libavcodec/8bps.c:83-121 | All rows of a plane, up to the first invalid one |
| `PlanarRle.EightBpsContext.DecodeFrame` | FFmpegInterop/ffmpeg/libavcodec/8bps.c:76-122 | The frame is the interleaving of the planes' rows, on success and up to where an invalid packet ends |
| `DeltaDecode.DecodedStep` | FFmpegInterop/ffmpeg/libavcodec/8svx.c:74-80 | Each sample is the one before it plus a delta, clipped to a byte, low half of the byte first |
| `DeltaDecode.DecodedUnique` | FFmpegInterop/ffmpeg/libavcodec/8svx.c:74-80 | This determines all samples |
| `DeltaDecode.DecodedAppend` | FFmpegInterop/ffmpeg/libavcodec/8svx.c:69-83 | Decoding can stop anywhere and go on from the value kept |
| `DeltaDecode.FrameIff` | FFmpegInterop/ffmpeg/libavcodec/8svx.c:130-135 | Call n gives a frame if and only if n < ceil(chan_size / 2048) |
| `DeltaDecode.ChunkedIsOneShot` | FFmpegInterop/ffmpeg/libavcodec/8svx.c:130-149 | The frames of a channel concatenate to the one-shot decoding of all its bytes, two samples a byte |
| `DeltaDecode.PacketIsOneShot` | FFmpegInterop/ffmpeg/libavcodec/8svx.c:95-149 | From the first packet on: each channel is the one-shot decoding of its half of the packet |
| `DeltaWriter.DecodedBack` | FFmpegInterop/ffmpeg/libavcodec/8svx.c:74-80 | Round trip: deltas packed two to a byte, the first in the low half, are decoded to their sums, each the nearest value in 0..255 |
| `DeltaWriter.PacketBack` | FFmpegInterop/ffmpeg/libavcodec/8svx.c:95-124 | Each channel of a packet is decoded from its signed start value, shifted by 128, and its own deltas |
| `DeltaWriter.PartsBack` | FFmpegInterop/ffmpeg/libavcodec/8svx.c:95-124 | A stereo packet holds its two channels one after the other; an odd byte left over belongs to none |
| `DeltaWriter.TablesAre` | FFmpegInterop/ffmpeg/libavcodec/8svx.c:57-58 | The tables hold the Fibonacci numbers and the powers of two, with both signs |
| `DeltaDecode.WholePacketUsed` | FFmpegInterop/ffmpeg/libavcodec/8svx.c:147-151 | The frames report the whole packet as used, but for an odd byte |
| `DeltaDecode.EightSvxContext.Delta` | FFmpegInterop/ffmpeg/libavcodec/8svx.c:69-83 | The loop writes the one-shot decoding and returns the last value |
| `DeltaDecode.EightSvxContext.Store` | FFmpegInterop/ffmpeg/libavcodec/8svx.c:95-124 | The first packet is stored, or refused exactly if it is too small |
| `DeltaDecode.EightSvxContext.DecodePiece` | FFmpegInterop/ffmpeg/libavcodec/8svx.c:142-145 | The next piece of each channel, with the last values kept |
| `DeltaDecode.EightSvxContext.DecodeFrame` | FFmpegInterop/ffmpeg/libavcodec/8svx.c:86-152 | Result and state for every call: refused, no frame, the next frame, or the size of a missing packet read |

## Left out

- VlcInit.InitVlc: entering the words is a function here, not a loop over a growing array; of an entry only its length or subtable width is kept, not the symbol or the index, which may exceed 16 bits; running out of memory. Which of two codes with equal keys comes first is left to the sort.
- HuffmanTables.ReadHuffmanTables: the lookup tables that init_vlc leaves, and decoding with them.
- 4XM intra frames (decode_i_frame, decode_i2_frame, the inverse transform) and the choice of frame type: numerics without a clean specification.
- The header of a 4XM inter frame (stream sizes, byte swapping of the bitstream) and the contents of the displacement table: the decoder is proved for every table of 256 displacements and every three streams.
- `LE_CENTRIC_MUL` on big-endian machines: the little-endian form is modelled.
- Fragments.FourXContext.AddFragment: a failing reallocation, and decoding the assembled frame.
- BsfPump.OutputStream.Pump: a filter that fails ends the call and reports an error; filters here do not fail.
- BsfPump.OutputStream.OutputPacket: the same.
- VideoSync: the choice of a mode for VSYNC_AUTO, the computation of time and duration of a picture, forced key frames, two-pass logs and failing encoders; reals stand for doubles, and `lrintf` results fit an int.
- MuxTimestamps: one output stream; timestamps are unbounded integers, so sums do not overflow; a failing muxer and packet durations are not modelled.
- Avcc.SampleProvider.GetSPSAndPPSBuffer: a missing codec context (an immediate failure); short extra data are read as followed by zeros, as FFmpeg pads them; packets are shorter than 2^31 bytes, as FFmpeg's sizes are.
- Demux.FFmpegReader.GetNextPacket: times, durations, the start offset, and writing the packet out.
- Demux.FFmpegReader.GetNextSample: time, duration and discontinuity flag of the sample.
- Demux: a provider that is replaced while in use.
- AudioSamples.UncompressedAudioSampleProvider.GetFrameFromFFmpegDecoder: sends and receives that fail.
- AudioSamples.UncompressedAudioSampleProvider.DecodeAVPacket: decoders that fail, and resampling (a frame carries its PCM).
- AudioSamples.UncompressedAudioSampleProvider.DecodeNext: decoders that fail.
- AudioSamples.UncompressedAudioSampleProvider.GetNextPacket: the skipping of broken packets (it is in the model of the demuxer) and the discontinuity flag.
- AudioSamples.UncompressedAudioSampleProvider.GetNextSample: the duration computed from the byte count, and the discontinuity flag.
- Mft.FFmpegContext.Initialize: a context whose helper failed has no frame object; decoding with it is not modelled.
- Mft.FFmpegContext.FlushInput: a decoder that cannot be opened again; the failure is reported, but what the next call does with the closed decoder is not modelled.
- Mft.FFmpegContext.SendPacket: what a decoder keeps of a packet it fails on; such a packet is as if not sent.
- Mft: the times and durations put on samples, event queues, attributes, reference counts, media type negotiation and lock interleavings; a call whose effect is undefined (on a context disposed of, or with a null output type) changes nothing here.
- CommandLine: the conversion of arguments on Windows, and what the options do; library options are kept as a list of settings for each group, in place of dictionaries.
- PlanarRle: palettes; frames have rows of `linesize` bytes, and sizes of the table do not overflow 32 bits. Pointers are offsets; the distances that may be compared without signs are proved not to be negative.
- DeltaDecode.EightSvxContext.DecodeFrame: what happens after the size of a missing packet is read, and failing allocation.
- aac_ac3_parser.c, aac_parser.c, 012v.c and FFmpegVorbis.cpp: what they rely on is not part of the repository, or their edge cases follow no tidy specification.
- COM and WinRT plumbing, allocation failure elsewhere, logging, terminal handling, threads, devices and help texts: foreign interfaces without deep properties.
