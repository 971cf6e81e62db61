# A Dafny model of FFmpeg 4.2.2: the 4X Movie decoder, ffplay's queues, and the ffmpeg tool's timing and packet flow

The project models the parts of FFmpeg 4.2.2 in which many steps have to work together, and proves what they are for.
`dafny verify dfyconfig.toml` checks it.

**4X Movie decoder** (`libavcodec/4xm.c`)

- `HuffmanTables` is `read_huffman_tables`: it reads byte frequencies, joins the two smallest live nodes in flat arrays,
  and walks every symbol to its root. `HuffmanTree` and `HuffmanLengths` hold the argument about merges, Kraft sums and
  optimal lengths, on `Sums`, `Binary` and `Arithmetic`.
- `VlcBuild` is `init_vlc` (`libavcodec/bitstream.c`), which makes lookup tables one below the other in one growing table,
  and `get_vlc2` (`libavcodec/get_bits.h`). `VlcTable` says what such tables hold, and `Vlc` what decoding with a prefix
  code means.
- `PFrame` is `decode_p_block` and the block loops of `decode_p_frame`. It paints a frame in place, against a function
  that first parses the split tree of each block. `BlockCoder` is the partner, with codewords of its own: it writes split
  trees, and draws any picture. `MotionCopy` is `mcdc` with its packed pairs of pixels, over the flat pictures of
  `Picture`.
- `IBlock` is `decode_i_block` on decoded symbols, with a coder for quantised blocks (ITU-T T.81, sections F.1.2 and
  F.2.2) as its partner; `BlockSymbols` says what any symbols mean. `IFrame` puts it together with the prefix code: the
  decoder in place, up to `decode_i_frame`.

**ffplay** (`fftools/ffplay.c`), as state machines whose steps are lock, condition-variable and field operations

- `FrameRing` is the ring of frames between a decoder thread and a consumer, and the shutdown in `decoder_abort`.
  `RingDelivery` follows the frames through it.
- `SeekSafety` is the packet queue with its serial numbers, the decoder thread with its codec and filter graph, and the
  consumer's serial check. `SeekDelivery` follows packets and frames through the three threads.

**ffmpeg** (`fftools/ffmpeg.c`), on the timestamp arithmetic of `Timestamps`

- `BsfChain` is `output_packet` with its chain of bitstream filters.
- `LoopTiming` is the shift of timestamps under `-stream_loop`.
- `VideoSync` is the duplicating and dropping of pictures in `do_video_out`. `VideoRates` says which picture is encoded
  at which tick for each sync method, and `VideoCounts` what the counts in the report mean.
- `Muxing` is `write_packet` with the queue before the header, and `check_init_output_file`.

**Command line** (`fftools/cmdutils.c`)

- `CommandLine` is `split_commandline`, with a printer for what was split. `CommandItems` says what a command line
  means without the splitter.

Classes and methods follow the functions of the program that change state; each is tied to a function of the old state,
and the main results are lemmas about these functions over all inputs, runs or reachable states.

## Where the code does not do what one would expect

- With all 257 symbols in use the tree loop runs out of inner nodes and leaves two trees, whose codes are not prefix-free
  (`HuffmanTables.PrefixFreeIff`). `init_vlc` refuses them exactly if every symbol has a codeword; if one of the trees is a
  single symbol, that symbol has none, and the rest is accepted (`HuffmanTables.AcceptedIff`, with a header of each kind).
  Every table that is accepted is prefix-free and complete. The question at 4xm.c:697 has the answer no: no code is
  longer than 22 bits.
- `decode_i_block` refuses a block when fewer than two magnitude bits are left, although a block may need none
  (`IBlock.BlocksRoundTrip` says exactly when).
- A ring of a single slot that keeps its last frame can hang in `decoder_abort`: its one signal may wake the consumer
  instead of the decoder thread (`FrameRing.LostWakeupIff`), and then the wait never ends (`FrameRing.StuckForever`). For
  every other ring it can always end, within 32 steps (`FrameRing.FinishesIff`). ffplay's rings have 3, 9 and 16 slots.
- Such a ring also never gets past its first frame (`RingDelivery.OneSlotUsesOne`, `RingDelivery.DeliverableIff`).
- A looped file goes on in order exactly if its shift is more than the distance of a stream's greatest timestamp from its
  least (`LoopTiming.NextInOrderIff`). The stream that sets the shift is in order exactly if its last frame counts for at
  least one tick (`LoopTiming.LongestInOrderIff`); an audio frame shorter than half a tick counts for none.
- A call that skips a too large duplication counts drops too often, and a frame cut off by the recording time is counted
  but not encoded; `VideoSync.ReportBalancesIff` says exactly when the final report balances.
- A first picture that comes late, and has all its frames taken for those of the picture before it, is reported as one
  drop and one duplicate too many (`VideoCounts.CountsMean`, with `VideoCounts.LateFirst`, where `-frames 1` does it).
- The message about a dropped picture reads the timestamp of a picture that has not been kept, if the recording time ended
  among frames for a picture that there was not (`VideoSync.ReadsMissingIff`); without a recording time it never does.
- A packet without a dts makes the muxing stage forget the one before it, so that the next dts may fall
  (`Muxing.DtsRisesIff` says exactly when it has risen).
- `-nofoo` for a global option `foo` means something else as the last argument than before others, if the libraries have
  an option `nofoo`. Printing and splitting are inverse on every command line that does not end in such an argument
  (`CommandLine.RoundTrip`), and on all of them exactly without such a name (`CommandLine.RoundTripsIff`). A line that
  does, and has no groups, comes back exactly if it gives only global options and pairs `-nofoo -nofoo`
  (`CommandLine.LineRoundTripsIff`).

## Model

| member | source | states |
|---|---|---|
| HuffmanTables.ReadSegment | ffmpeg-4.2.2/libavcodec/4xm.c:642-643 | frequencies start..end become the next bytes, all others are kept |
| HuffmanTables.Align | ffmpeg-4.2.2/libavcodec/4xm.c:652-653 | the next multiple of four, fewer than four bytes on |
| HuffmanTables.ReadSegments | ffmpeg-4.2.2/libavcodec/4xm.c:634-649 | the segment loop ends, fails exactly on missing bytes, and leaves the parsed frequencies |
| HuffmanTables.ReadFrequencies | ffmpeg-4.2.2/libavcodec/4xm.c:630-658 | the whole table of frequencies with the forced symbol 256 and the aligned end |
| HuffmanTables.SegmentsAreBytes | ffmpeg-4.2.2/libavcodec/4xm.c:642-643 | every frequency read is a byte, however segments overlap |
| HuffmanTables.PrintedTableRead | ffmpeg-4.2.2/libavcodec/4xm.c:630-658 | every table of 256 byte frequencies can be transmitted: printed and read it comes back |
| HuffmanTables.PrintedSegmentsRead | ffmpeg-4.2.2/libavcodec/4xm.c:630-658 | for any list of segments, the first with any start and later ones not from 0, printed and followed by anything: each symbol gets the byte of the last segment that covers it, 0 if none does, symbol 256 gets 1, and the data goes on at the next multiple of four; reading fails exactly if the buffer ends before |
| HuffmanTables.ReadIffPrinted | ffmpeg-4.2.2/libavcodec/4xm.c:630-658 | a buffer is read exactly if it begins with printed segments and is long enough for their padding |
| HuffmanTables.TwoSmallest | ffmpeg-4.2.2/libavcodec/4xm.c:661-680 | one scan finds the two smallest live frequencies, of equal ones those with the smaller indices, in order; it fails only if no two are live |
| HuffmanTables.BelowSentinel | ffmpeg-4.2.2/libavcodec/4xm.c:661-680 | no live node ever reaches the sentinel 256 * 256 |
| HuffmanTables.JoinRoots | ffmpeg-4.2.2/libavcodec/4xm.c:682-687 | the five assignments are one merge of the forest |
| HuffmanTables.GrowTree | ffmpeg-4.2.2/libavcodec/4xm.c:660-688 | the loop is a run of merges of the two smallest that stops for want of roots or of nodes |
| HuffmanTables.WalkUp | ffmpeg-4.2.2/libavcodec/4xm.c:691-700 | the walk ends at the root with the length and value of the node's code, and never reports an overflow |
| HuffmanTables.EmitCodes | ffmpeg-4.2.2/libavcodec/4xm.c:690-704 | the two tables list the code of every symbol |
| HuffmanTables.ReadHuffmanTables | ffmpeg-4.2.2/libavcodec/4xm.c:616-712 | fails exactly on malformed data, or where all 257 symbols occur and have codewords; otherwise leaves tables that decode the code of a Huffman tree, which is prefix-free and complete, and gives the end of the header |
| HuffmanTables.TableUnique | ffmpeg-4.2.2/libavcodec/4xm.c:660-704 | the frequencies decide the table: ties go to the smaller index, and the flags of roots, which are not set, do not matter |
| HuffmanTables.CodesShort | ffmpeg-4.2.2/libavcodec/4xm.c:690-704 | for any frequencies no code is longer than 22 bits, and bits < 2^len |
| HuffmanTables.PrefixFreeIff | ffmpeg-4.2.2/libavcodec/4xm.c:660-704 | the codes of the symbols that occur are prefix-free exactly when at most 256 occur |
| HuffmanTables.KraftSumOne | ffmpeg-4.2.2/libavcodec/4xm.c:660-704 | the Kraft sum over the symbols that occur is exactly 1 |
| HuffmanTables.HuffmanOptimal | ffmpeg-4.2.2/libavcodec/4xm.c:660-704 | no prefix-free binary code has a smaller sum of frequency times length |
| HuffmanTables.AcceptedIff | ffmpeg-4.2.2/libavcodec/4xm.c:706-709 | init_vlc accepts the codes exactly if at most 256 symbols occur, or one that occurs was left over as a root and has no codeword |
| HuffmanTables.AcceptedSound | ffmpeg-4.2.2/libavcodec/4xm.c:706-709 | the codewords of an accepted table are prefix-free, and one of them begins any long enough stream |
| HuffmanTables.NoHeavySymbolRefused | ffmpeg-4.2.2/libavcodec/4xm.c:706-709 | with all 257 symbols, and none a third of their total, the codes are refused |
| HuffmanTables.EqualFrequenciesRefused | ffmpeg-4.2.2/libavcodec/4xm.c:706-709 | a header with all frequencies 1 is read and its codes are refused |
| HuffmanTables.HeavyFrequencyAccepted | ffmpeg-4.2.2/libavcodec/4xm.c:706-709 | a header with 255 among ones is read and accepted, and symbol 255 cannot be coded |
| HuffmanTables.CodedIff | ffmpeg-4.2.2/libavcodec/4xm.c:690-709 | with 2 to 256 symbols exactly those that occur have codewords |
| HuffmanTables.DecodeRoundTrip | ffmpeg-4.2.2/libavcodec/4xm.c:660-710 | with an accepted table, decoding a concatenation of codewords gives the symbols that were coded, and then what follows |
| HuffmanTables.DecodeFailsIff | ffmpeg-4.2.2/libavcodec/4xm.c:507 | a lookup in an accepted table gives -1 exactly if only one symbol occurs |
| HuffmanTables.TableBuilt | ffmpeg-4.2.2/libavcodec/4xm.c:706-709 | the codes of a tree have a clash, exactly if all 257 symbols have codewords, or are such that init_vlc succeeds: prefix-free, complete, of at most 512 symbols and 22 bits |
| VlcBuild.VLC.InitVlc | ffmpeg-4.2.2/libavcodec/bitstream.c:273-355 | succeeds for no code with a length or codeword out of range, or a clash (one codeword begins another, for tables of one level or with the first in the top table); for a prefix-free code it makes tables that decode it, or one does not fit in 16-bit indices; that cannot be for a complete code of at most 512 symbols and 22 bits |
| VlcBuild.CopyCodes | ffmpeg-4.2.2/libavcodec/bitstream.c:305-333 | the macro COPY takes just the long, or just the short, codes, and fails exactly if one of them is out of range |
| VlcBuild.SortSorts | ffmpeg-4.2.2/libavcodec/bitstream.c:336 | the long codes are sorted by codeword, none added or lost |
| VlcBuild.GroupEnd | ffmpeg-4.2.2/libavcodec/bitstream.c:204-219 | the longest stretch of codes that go to one table, and the most bits that are left of one |
| VlcBuild.VLC.FillCells | ffmpeg-4.2.2/libavcodec/bitstream.c:180-200 | the code is put in every entry that it begins and in no other; fails exactly if one of them is taken by another |
| VlcBuild.VLC.BuildBelow | ffmpeg-4.2.2/libavcodec/bitstream.c:201-235 | a group's codes get a table of their own below; the entries made before stay, and the room taken is bounded |
| VlcBuild.VLC.BuildTable | ffmpeg-4.2.2/libavcodec/bitstream.c:157-244 | the recursion on the growing table: what it appends holds the codes, if they are prefix-free; otherwise it succeeds only if no two codes of one level clash |
| VlcBuild.VLC.Sweep | ffmpeg-4.2.2/libavcodec/bitstream.c:238-241 | entries of no code get the symbol -1, and no other entry changes |
| VlcBuild.SortedArranged | ffmpeg-4.2.2/libavcodec/bitstream.c:153-155 | sorting by codeword puts codes for one table together, as build_table requires |
| VlcBuild.MarksApart | ffmpeg-4.2.2/libavcodec/bitstream.c:188-191 | codes with entries of their own do not begin each other, if one of them is in this table |
| VlcBuild.ShortApart | ffmpeg-4.2.2/libavcodec/bitstream.c:188-191 | a code that finds its entries vacant clashes with none of those before it, although tables may have taken entries over |
| VlcBuild.LongApart | ffmpeg-4.2.2/libavcodec/bitstream.c:204-224 | codes of a group clash with none before it, and with each other only if they clash in the table below |
| VlcBuild.VLC.GetVlc2 | ffmpeg-4.2.2/libavcodec/get_bits.h:797-831 | at most three lookups in the tables give the symbol that the greedy decoding gives, and skip just its codeword |
| VlcTable.TableNext | ffmpeg-4.2.2/libavcodec/get_bits.h:776-786 | an entry for another table: whatever code comes next is in that table, with the bits after these |
| VlcTable.AnswersLookup | ffmpeg-4.2.2/libavcodec/get_bits.h:788-796 | the answer of tables for a prefix-free code is the greedy lookup, zeros being read past the end |
| Vlc.RefusedIff | ffmpeg-4.2.2/libavcodec/bitstream.c:188-191 | for codewords of at most 18 bits, having no clash is being prefix-free |
| Vlc.LookupFinds | ffmpeg-4.2.2/libavcodec/get_bits.h:797-831 | the codeword that comes next decides the symbol |
| Vlc.LookupFailsIff | ffmpeg-4.2.2/libavcodec/get_bits.h:788-796 | in a prefix-free and complete code a lookup fails only if there are no codewords |
| Vlc.DecodeEncoded | ffmpeg-4.2.2/libavcodec/get_bits.h:797-831 | a prefix-free code is decoded to the symbols that were coded, whatever follows |
| HuffmanTree.MergesGrow | ffmpeg-4.2.2/libavcodec/4xm.c:661-688 | merged weights never decrease from one merge to the next |
| HuffmanTree.HeightsExist | ffmpeg-4.2.2/libavcodec/4xm.c:660-688 | nodes have heights that grow towards the root and stay within 22, since a node of height h weighs at least Fib(h+2) |
| HuffmanTree.DepthBound | ffmpeg-4.2.2/libavcodec/4xm.c:690-700 | up[node] > node along every walk, and no walk is longer than 22 steps |
| HuffmanTree.RunGrows | ffmpeg-4.2.2/libavcodec/4xm.c:660-689 | the final links give each merged node its parent's code and one more bit; at most 255 merges, and fewer only if one root is left |
| HuffmanTree.KraftOfTrees | ffmpeg-4.2.2/libavcodec/4xm.c:660-704 | whatever roots a run leaves, the Kraft sum of the codes is their number |
| HuffmanTree.TreePrefixFree | ffmpeg-4.2.2/libavcodec/4xm.c:660-704 | of two live nodes below one root neither code begins the other |
| HuffmanTree.TreeComplete | ffmpeg-4.2.2/libavcodec/4xm.c:660-704 | below each root some code begins every long enough bit stream |
| HuffmanTree.TwoTreesClash | ffmpeg-4.2.2/libavcodec/4xm.c:660-704 | a run that leaves two roots gives two nodes of which one's code begins the other's |
| HuffmanTree.CodesPrefixFree | ffmpeg-4.2.2/libavcodec/4xm.c:660-704 | a run that leaves one root gives prefix-free codes |
| HuffmanTree.KraftEquality | ffmpeg-4.2.2/libavcodec/4xm.c:660-704 | ... with Kraft sum exactly 1 |
| HuffmanTree.LengthsOptimal | ffmpeg-4.2.2/libavcodec/4xm.c:660-704 | ... and whose lengths cost no more than any that satisfy Kraft's inequality |
| HuffmanLengths.KraftInequality | ffmpeg-4.2.2/libavcodec/4xm.c:691-705 | the lengths of any prefix-free code satisfy Kraft's inequality |
| HuffmanLengths.ExchangeStep | ffmpeg-4.2.2/libavcodec/4xm.c:661-688 | lengths for the weights give lengths for the weights after a merge, cheaper by the merged weight |
| MotionCopy.LittleEndianPixels | ffmpeg-4.2.2/libavcodec/4xm.c:287-291 | the packed product and sum are the two pixels, the second with the carry of the first |
| MotionCopy.EndiannessAgrees | ffmpeg-4.2.2/libavcodec/4xm.c:277-292 | the big-endian macro stores the same two pixels for every scale |
| MotionCopy.ScaleZeroFills | ffmpeg-4.2.2/libavcodec/4xm.c:294-340 | scale 0 fills exactly with dc |
| MotionCopy.DcZeroCopies | ffmpeg-4.2.2/libavcodec/4xm.c:294-340 | scale 1 with dc 0 copies exactly |
| MotionCopy.MulPair | ffmpeg-4.2.2/libavcodec/4xm.c:277-292 | writes the two pixels of the per-pixel specification and nothing else |
| MotionCopy.CopyRow | ffmpeg-4.2.2/libavcodec/4xm.c:300-336 | one row of any width is the per-pixel specification, and no other pixel changes |
| MotionCopy.Mcdc | ffmpeg-4.2.2/libavcodec/4xm.c:294-340 | the block is the per-pixel specification of the source block, for every size and stride; the rest of the frame is kept |
| MotionCopy.InRangeReads | ffmpeg-4.2.2/libavcodec/4xm.c:361-362 | a source pointer between start and end has every row of the block inside the previous frame |
| PFrame.BlockTypesComplete | ffmpeg-4.2.2/libavcodec/4xm.c:46-75 | for every size any five bits begin with exactly one codeword; a side of one pixel is never halved, 1x1 is never reached, raw pairs are for two pixels |
| PFrame.BlockCode | ffmpeg-4.2.2/libavcodec/4xm.c:351-359 | the code read is at most 6 (the assertion in the source) and fits the block's size |
| PFrame.Parse | ffmpeg-4.2.2/libavcodec/4xm.c:364-378 | every parsed split tree has halves of the right sizes and leaves that fit, reading only inside the previous frame |
| PFrame.ParseLeaf | ffmpeg-4.2.2/libavcodec/4xm.c:378-424 | a leaf that parses reads only inside the previous frame |
| PFrame.OwnPositionInRange | ffmpeg-4.2.2/libavcodec/4xm.c:414 | the assertion before a fill never fails |
| PFrame.LeavesTile | ffmpeg-4.2.2/libavcodec/4xm.c:364-377 | each pixel of a block is covered by exactly one leaf of its tree, and no pixel outside by any |
| PFrame.PixelOfLeaf | ffmpeg-4.2.2/libavcodec/4xm.c:364-427 | painting a tree gives each pixel the value that its covering leaf gives |
| PFrame.FourXContext.DecodeRaw | ffmpeg-4.2.2/libavcodec/4xm.c:378-391 | code 6 stores two words from the word stream in the two pixels, or fails for want of four bytes |
| PFrame.FourXContext.ReadMotion | ffmpeg-4.2.2/libavcodec/4xm.c:393-422 | vector, scale and dc are those of the parsed leaf; with the range test it succeeds exactly when the leaf parses |
| PFrame.FourXContext.DecodeLeaf | ffmpeg-4.2.2/libavcodec/4xm.c:378-427 | a leaf is decoded in place as it is parsed and painted |
| PFrame.FourXContext.DecodeBlock | ffmpeg-4.2.2/libavcodec/4xm.c:342-427 | the recursion in place succeeds exactly when parsing does, leaves the same input, and paints exactly the block |
| PFrame.FourXContext.DecodeRow | ffmpeg-4.2.2/libavcodec/4xm.c:482-487 | the same for a row of 8x8 blocks |
| PFrame.FourXContext.DecodeFrame | ffmpeg-4.2.2/libavcodec/4xm.c:482-490 | the same for the frame: every pixel is painted by the block it lies in |
| BlockCoder.WordRead | ffmpeg-4.2.2/libavcodec/4xm.c:46-75 | the codewords of both versions, written out for every size, are read back as their block types, whatever follows |
| BlockCoder.PrintedParsed | ffmpeg-4.2.2/libavcodec/4xm.c:342-427 | every split tree that fits, written as codewords, vector bytes and words with the low byte first, is parsed as what it means: code 0 a vector, 1 and 2 halves, 3 the same block, 4 a vector and dc, 5 dc alone, 6 two raw pixels; what follows is left |
| BlockCoder.ParsedIsWritten | ffmpeg-4.2.2/libavcodec/4xm.c:342-427 | nothing else is parsed: what is read for a block was written for a tree that means it, where the codeword of the last leaf may end in zeros past the end of the bits |
| BlockCoder.FrameParsed | ffmpeg-4.2.2/libavcodec/4xm.c:482-490 | the same for a whole frame of split trees |
| BlockCoder.MovedPixel | ffmpeg-4.2.2/libavcodec/4xm.c:424 | each pixel of a moved block is the one (dy, dx) away in the previous picture plus dc, with the carry of the first pixel of its pair |
| BlockCoder.FilledPixel | ffmpeg-4.2.2/libavcodec/4xm.c:409-417 | a filled block has dc everywhere, and one that stays the same what it had |
| BlockCoder.AnyPictureSent | ffmpeg-4.2.2/libavcodec/4xm.c:482-490 | every picture can be sent: the frame drawn for it is parsed, and painting it makes this picture of any other |
| IBlock.MagnitudeExtends | ffmpeg-4.2.2/libavcodec/4xm.c:513-514 | get_xbits inverts the magnitude coding of T.81 |
| IBlock.AcRoundTrip | ffmpeg-4.2.2/libavcodec/4xm.c:519-551 | the AC loop undoes the run/size coder from any coefficient on, and leaves what follows |
| IBlock.DcRoundTrip | ffmpeg-4.2.2/libavcodec/4xm.c:501-517 | the DC part undoes the difference coder, except with fewer than two bits left |
| IBlock.BlockRoundTrip | ffmpeg-4.2.2/libavcodec/4xm.c:497-554 | a block comes back as every coefficient times its dequantiser entry; it fails exactly below two bits |
| IBlock.BlocksRoundTrip | ffmpeg-4.2.2/libavcodec/4xm.c:497-554 | any sequence of blocks with one shared predictor comes back; it fails exactly if fewer than two bits are left at the last block |
| BlockSymbols.AcRead | ffmpeg-4.2.2/libavcodec/4xm.c:519-551 | any symbols, not only those of a coder: each level, dequantised, is at the position that the runs and skips before it add up to, no other coefficient changes, and the loop ends with exactly the symbol that ends it: 0, a skip or a level past the end, the level at the last position, or a run without a level, which fails |
| BlockSymbols.BlockRead | ffmpeg-4.2.2/libavcodec/4xm.c:497-554 | any block: it fails exactly below two bits or for a run without a level; otherwise the difference is added to the predictor modulo 2^16, the levels are placed, and what follows is left unread |
| BlockSymbols.DcRefusedIff | ffmpeg-4.2.2/libavcodec/4xm.c:501-511 | the DC part fails exactly below two bits or for a first symbol above 15 |
| IFrame.IntraDecoder.DecodeDcCoefficient | ffmpeg-4.2.2/libavcodec/4xm.c:501-517 | the DC part in place on the prefix stream, with the predictor and the 16-bit store; where it succeeds, no lookup can fail any more |
| IFrame.IntraDecoder.DecodeAcCoefficients | ffmpeg-4.2.2/libavcodec/4xm.c:519-551 | the AC loop in place on the prefix stream, with its two silent run overflows; it terminates, since the lookup cannot give -1 there |
| IFrame.IntraDecoder.DecodeIBlock | ffmpeg-4.2.2/libavcodec/4xm.c:497-554 | a whole block in place |
| IFrame.IntraDecoder.DecodeMacroblocks | ffmpeg-4.2.2/libavcodec/4xm.c:602-614 | six cleared blocks for each macroblock, with the predictor carried through all of them |
| IFrame.IntraDecoder.DecodeIFrame | ffmpeg-4.2.2/libavcodec/4xm.c:797-831 | header, tables, blocks and end symbol in place; fails exactly for malformed data, refused codes or malformed blocks |
| IFrame.FrameRoundTrip | ffmpeg-4.2.2/libavcodec/4xm.c:797-831 | quantised blocks, coded with one predictor and any prefix-free and complete code, come back from the frame with the right end; it fails exactly below two magnitude bits at the last block |
| IFrame.PrintedFrameRoundTrip | ffmpeg-4.2.2/libavcodec/4xm.c:797-831 | the same from the printed header on: the table that the header gives decodes the words after it to the blocks |
| IFrame.PrestreamRead | ffmpeg-4.2.2/libavcodec/4xm.c:797-815 | a printed header and code in swapped words are read back: the same frequencies, and the code first |
| IFrame.OccurringCoded | ffmpeg-4.2.2/libavcodec/4xm.c:660-709 | with 2 to 256 symbols the table of the header has a codeword for every symbol that occurs |
| FrameRing.SizeBounds | ffmpeg-4.2.2/fftools/ffplay.c:745-806 | in every reachable state size is within 0..max_size, and rindex_shown = 1 implies size >= 1 |
| FrameRing.WriterSlotSafe | ffmpeg-4.2.2/fftools/ffplay.c:745-796 | the slot being filled is none that the consumer may still look at, the kept last frame included |
| FrameRing.ReadsAreQueue | ffmpeg-4.2.2/fftools/ffplay.c:730-743 | peek, peek_next, peek_last and nb_remaining show the queue and the last shown frame |
| FrameRing.RefinesQueue | ffmpeg-4.2.2/fftools/ffplay.c:745-806 | every step appends the filled frame, removes the head, or leaves the queue alone |
| FrameRing.NoLostWakeup | ffmpeg-4.2.2/fftools/ffplay.c:818-825 | after packet_queue_abort and frame_queue_signal nobody sleeps on either queue |
| FrameRing.LostWakeupIff | ffmpeg-4.2.2/fftools/ffplay.c:818-825 | the decoder thread can be left asleep exactly with one slot and keep_last |
| FrameRing.ReachLostWakeup | ffmpeg-4.2.2/fftools/ffplay.c:723-728 | a run that ends there |
| FrameRing.DecoderStepsBounded | ffmpeg-4.2.2/fftools/ffplay.c:818-822 | over any run after the abort the decoder thread takes at most ten more steps |
| FrameRing.DecoderFinishes | ffmpeg-4.2.2/fftools/ffplay.c:818-822 | from every reachable state in which decoder_abort waits, at most 32 steps of the two other threads end the decoder thread and the wait |
| FrameRing.StuckForever | ffmpeg-4.2.2/fftools/ffplay.c:818-822 | a decoder thread left asleep stays so in every run without a spurious wake-up |
| FrameRing.FinishesIff | ffmpeg-4.2.2/fftools/ffplay.c:818-822 | the wait can always end exactly with more than one slot, or without keep_last |
| FrameRing.StepKeepsInv | ffmpeg-4.2.2/fftools/ffplay.c:543-579 | every step of the threads keeps the invariant of counters, locks, sleepers and slots |
| RingDelivery.RingDelivers | ffmpeg-4.2.2/fftools/ffplay.c:745-806 | over every run the frames put in are those that the consumer has used, in order and each once, and then those still ahead of it |
| RingDelivery.DeliverableIff | ffmpeg-4.2.2/fftools/ffplay.c:745-806 | any list of frames can be put in and used exactly if the ring has more than one slot, or does not keep its last frame |
| RingDelivery.OneSlotUsesOne | ffmpeg-4.2.2/fftools/ffplay.c:787-800 | a single slot that keeps its last frame: over every run no more than one frame is used |
| SeekSafety.SeekSafety | ffmpeg-4.2.2/fftools/ffplay.c:1605-1608 | over every interleaving, a frame that passes the serial check depends only on packets of that serial, read after its seek and before the next |
| SeekSafety.StepKeepsInv | ffmpeg-4.2.2/fftools/ffplay.c:590-677 | every step of the three threads keeps the invariant |
| SeekSafety.PutKeeps | ffmpeg-4.2.2/fftools/ffplay.c:427-454 | queueing keeps it that in the queue only a flush packet raises the serial |
| SeekSafety.TakeKeeps | ffmpeg-4.2.2/fftools/ffplay.c:543-579 | so does taking the first packet |
| SeekSafety.DemuxerKeepsQueue | ffmpeg-4.2.2/fftools/ffplay.c:2951-2962 | so do the seek, the emptying of the queue and the flush packet after it |
| SeekSafety.DecodeKeepsDecoder | ffmpeg-4.2.2/fftools/ffplay.c:590-677 | the codec holds packets of one serial, and gets none of the queue's serial before it was flushed for it |
| SeekSafety.OutputKeepsOutput | ffmpeg-4.2.2/fftools/ffplay.c:2150-2211 | the filter graph holds packets of the serial that its frames carry |
| SeekDelivery.ShownAreTaken | ffmpeg-4.2.2/fftools/ffplay.c:1593-1608 | over every run each step of the consumer takes one frame; shown are exactly the taken frames with the serial of the queue at that moment, in order; taken and still queued frames are those pushed, in order |
| SeekDelivery.TakenInOrder | ffmpeg-4.2.2/fftools/ffplay.c:543-579 | over every run packets are taken in the order in which they were put, each at most once; without packet_queue_flush none is left out |
| SeekDelivery.TakenAreResolved | ffmpeg-4.2.2/fftools/ffplay.c:632-671 | over every run the packets taken are, in order and each once, those the decoder thread is done with and the one in hand; one was sent to the codec exactly if it was no flush packet and its serial was the queue's at its last check |
| SeekDelivery.PlayerDelivers | ffmpeg-4.2.2/fftools/ffplay.c:590-677 | the three together for a player from its start |
| SeekDelivery.NothingLost | ffmpeg-4.2.2/fftools/ffplay.c:590-677 | without a seek or abort the packets put are, in order, those sent to the codec, the one in hand and those in the queue |
| SeekDelivery.NextIsShown | ffmpeg-4.2.2/fftools/ffplay.c:1593-1608 | from every reachable state in which the threads have not been stopped, a packet read next can be shown, without a further seek |
| BsfChain.OutputStream.OutputPacket | ffmpeg-4.2.2/fftools/ffmpeg.c:846-895 | after every call the packets written are the composed filters applied to all packets accepted, with what was delayed at the end; the walk ends, every send succeeds, and only a packet after the end fails |
| BsfChain.OutputStream.WrittenIsComposed | ffmpeg-4.2.2/fftools/ffmpeg.c:836-845 | the same between calls |
| BsfChain.ComposedInOrder | ffmpeg-4.2.2/fftools/ffmpeg.c:846-895 | a chain in two parts is the second part after the first |
| BsfChain.ComposedGrows | ffmpeg-4.2.2/fftools/ffmpeg.c:846-895 | what has come out stays: more packets or the end only add to it |
| BsfChain.MovePacket | ffmpeg-4.2.2/fftools/ffmpeg.c:861-877 | a packet goes to a filter that is drained, and nothing between filters is lost |
| BsfChain.MoveEof | ffmpeg-4.2.2/fftools/ffmpeg.c:867-877 | the end goes on once a filter is drained, and brings out what the next one delayed |
| BsfChain.EndWalk | ffmpeg-4.2.2/fftools/ffmpeg.c:860-885 | where the loop ends every filter is drained, and at the end all have been told |
| BsfChain.ToMoveFalls | ffmpeg-4.2.2/fftools/ffmpeg.c:860-882 | each packet or end moved lowers the measure of what is still to move |
| Timestamps.RoundDivNearest | ffmpeg-4.2.2/libavutil/mathematics.c:58-84 | av_rescale rounds to the nearest integer, halves away from zero |
| Timestamps.CompareIsExact | ffmpeg-4.2.2/libavutil/mathematics.c:147-158 | av_compare_ts compares the times in seconds exactly |
| Timestamps.RescaleAtLeast | ffmpeg-4.2.2/libavutil/mathematics.c:134-145 | a time of at least d ticks is still at least d ticks after rounding |
| Timestamps.RescaleNearest | ffmpeg-4.2.2/libavutil/mathematics.c:134-145 | the time in seconds stays the same to within half a tick of the new time base |
| LoopTiming.InputFile.SeekToStart | ffmpeg-4.2.2/fftools/ffmpeg.c:4191-4247 | the duration becomes the longest of the counted streams' lengths and the one before; an error of the seek changes nothing |
| LoopTiming.InputFile.ProcessInput | ffmpeg-4.2.2/fftools/ffmpeg.c:4455-4463 | a timestamp is shifted by the rescaled duration and widens what was seen of its stream |
| LoopTiming.InputFile.Decoded | ffmpeg-4.2.2/fftools/ffmpeg.c:2336 | the samples of the last decoded frame are noted for that stream only |
| LoopTiming.LoopsInOrder | ffmpeg-4.2.2/fftools/ffmpeg.c:4191-4247 | all timestamps of a counted stream in any later playing are greater than all of an earlier one, for any mix of time bases |
| LoopTiming.LongestIsLongest | ffmpeg-4.2.2/fftools/ffmpeg.c:4172-4189 | seek_to_start never shortens the time and reaches the length of every counted stream |
| LoopTiming.LastFrameLasts | ffmpeg-4.2.2/fftools/ffmpeg.c:4213-4233 | the last frame counts for its samples over the sample rate, or for one over the frame rate, to within half a tick, or for one tick without a rate |
| LoopTiming.LongestIsOne | ffmpeg-4.2.2/fftools/ffmpeg.c:4172-4189 | the time after a seek is the length of a counted stream or the one before |
| LoopTiming.AllShifted | ffmpeg-4.2.2/fftools/ffmpeg.c:4455-4463 | over every run each packet of a playing goes on, in order, later by the time at which the playing began, to within half a tick |
| LoopTiming.ShiftedByLength | ffmpeg-4.2.2/fftools/ffmpeg.c:4455-4459 | from a seek on a counted stream is shifted by at least its length at that seek |
| LoopTiming.LongestIsGapless | ffmpeg-4.2.2/fftools/ffmpeg.c:4239-4242 | the longest stream goes on right after its last frame |
| LoopTiming.NextInOrderIff | ffmpeg-4.2.2/fftools/ffmpeg.c:4191-4247 | a playing that begins where the first did is in order after all earlier ones exactly if the shift is at least greatest - least + 1 |
| LoopTiming.LongestInOrderIff | ffmpeg-4.2.2/fftools/ffmpeg.c:4218-4242 | for the stream whose length is the duration: exactly if its last frame is at least one tick |
| LoopTiming.ZeroLengthRepeats | ffmpeg-4.2.2/fftools/ffmpeg.c:4218-4221 | one audio sample at 48 kHz as last frame of a millisecond stream: the next playing repeats the timestamp |
| VideoSync.OutputStream.DoVideoOut | ffmpeg-4.2.2/fftools/ffmpeg.c:1089-1198 | a call is the step of the specification: decision, limit, counts, skip, encoding, last frame |
| VideoSync.OutputStream.Decide | ffmpeg-4.2.2/fftools/ffmpeg.c:1095-1163 | how often the picture and the one before are encoded, and the next timestamp, for each sync method |
| VideoSync.OutputStream.EncodeFrames | ffmpeg-4.2.2/fftools/ffmpeg.c:1198-1338 | the encoding loop in place, with both of its early ends |
| VideoSync.EncodeCounts | ffmpeg-4.2.2/fftools/ffmpeg.c:1198-1338 | each frame encoded is one tick and one frame number, and encoding stops early only for the recording time or a missing picture |
| VideoSync.StepBalance | ffmpeg-4.2.2/fftools/ffmpeg.c:1168-1195 | a call changes pictures + dup - drop - last_dropped - encoded only by frames cut off and drops counted too much |
| VideoSync.FrameConservation | ffmpeg-4.2.2/fftools/ffmpeg.c:1089-1198 | for pictures, without recording time and skip: encoded = pictures + dup - drop - last_dropped, and after the flush encoded = pictures + dup - drop |
| VideoSync.ReportBalancesIff | ffmpeg-4.2.2/fftools/ffmpeg.c:1757 | over any run the report balances exactly when as many planned frames fall to the recording time or a flush without a picture as drops are counted too much, both by the guards before each call |
| VideoSync.StepEncodes | ffmpeg-4.2.2/fftools/ffmpeg.c:1198-1222 | a call encodes exactly the planned frames that the guards leave: none if skipped, those before the end of the recording time otherwise, none of no picture |
| VideoSync.UnskippedBalancesIff | ffmpeg-4.2.2/fftools/ffmpeg.c:1757 | without skips the report balances exactly when no call has a planned frame taken away |
| VideoSync.CutOffUnbalanced | ffmpeg-4.2.2/fftools/ffmpeg.c:1216 | a picture after the end of the recording time unbalances the report |
| VideoSync.SkipUnbalanced | ffmpeg-4.2.2/fftools/ffmpeg.c:1176-1187 | so does a skip after a dropped picture |
| VideoSync.FlushSkipUnbalanced | ffmpeg-4.2.2/fftools/ffmpeg.c:1181-1187 | and a skip at the flush |
| VideoSync.OutputStream.CountFrames | ffmpeg-4.2.2/fftools/ffmpeg.c:1168-1195 | the shift of last_nb0_frames and the counts of drops and duplicates in place, and the test for too many frames |
| VideoSync.ReadsMissingIff | ffmpeg-4.2.2/fftools/ffmpeg.c:1175-1180 | over any run the drop message reads a picture that has not been kept exactly if a drop is noted, and the last call not skipped had only frames of a picture that there was not and ran into the end of the recording time |
| VideoSync.NeverReadsMissing | ffmpeg-4.2.2/fftools/ffmpeg.c:1338-1346 | without a recording time it never does |
| VideoSync.FlushReadsMissing | ffmpeg-4.2.2/fftools/ffmpeg.c:1176-1180 | a first picture at tick 10, five frames at most and two of them recorded: the flush reads it |
| VideoSync.FrameLimit | ffmpeg-4.2.2/fftools/ffmpeg.c:1168 | no run encodes more frames than the limit, and frame_number counts them |
| VideoSync.StepDrift | ffmpeg-4.2.2/fftools/ffmpeg.c:1141-1152 | after a picture its end is at most 0.5 (or the drop threshold) after the output, and at most 2.1 before it exactly if that held before |
| VideoSync.CfrDrift | ffmpeg-4.2.2/fftools/ffmpeg.c:1095-1152 | at constant frame rate, with ends that do not fall, end time minus frames encoded stays in [-2.1, 0.5] for the whole run |
| VideoRates.VfrStep | ffmpeg-4.2.2/fftools/ffmpeg.c:1153-1158 | at a variable frame rate a picture is not encoded exactly if it ends 0.6 ticks or more before the next free one; otherwise it is encoded once, at the nearest tick to its clipped time if it ends more than 0.6 ticks after the free one, and else at that |
| VideoRates.VfrRun | ffmpeg-4.2.2/fftools/ffmpeg.c:1153-1158 | the same for every picture of every unhindered run, in what has been encoded at its end |
| VideoRates.VfrRises | ffmpeg-4.2.2/fftools/ffmpeg.c:1153-1158 | over every such run the timestamps strictly rise |
| VideoRates.PassStep | ffmpeg-4.2.2/fftools/ffmpeg.c:1159-1162 | with passthrough or dropped times a picture is encoded once, at the tick nearest to its time |
| VideoRates.PassRun | ffmpeg-4.2.2/fftools/ffmpeg.c:1159-1162 | over every such run each picture is encoded once, in order, at the tick nearest to its time |
| VideoRates.CfrShows | ffmpeg-4.2.2/fftools/ffmpeg.c:1141-1152 | at a constant frame rate consecutive ticks get first the picture before, as far as about 0.6 ticks before the time of the new one if that is late, and then the new one, as often as frames are missing |
| VideoRates.StartShows | ffmpeg-4.2.2/fftools/ffmpeg.c:1133-1140 | the picture that sets the start is encoded first at the tick nearest to its time, and none before it |
| VideoRates.VsCfrDrift | ffmpeg-4.2.2/fftools/ffmpeg.c:1133-1152 | the drift bound holds from the picture that sets the start on |
| VideoRates.CfrConsecutive | ffmpeg-4.2.2/fftools/ffmpeg.c:1198-1338 | over every run at a constant frame rate no tick is left out and none used twice |
| VideoCounts.CountsMean | ffmpeg-4.2.2/fftools/ffmpeg.c:1176-1195 | for any pictures, none twice, without recording time and skip: the drops are the pictures of which no frame was encoded, the duplicates the frames beyond the first of each; both are one more exactly if the first picture was encoded only in place of one before it, and the second call did not repeat it |
| VideoCounts.ReportMeans | ffmpeg-4.2.2/fftools/ffmpeg.c:1089-1094 | the same in the report after the flush |
| VideoCounts.LateFirst | ffmpeg-4.2.2/fftools/ffmpeg.c:1168-1195 | one picture at tick 10 and one frame allowed: it is encoded, and reported as a drop and a duplicate |
| VideoCounts.FlushRepeats | ffmpeg-4.2.2/fftools/ffmpeg.c:1089-1094 | after any pictures the flush repeats the last one as often as the median of how often the last three calls repeated the picture before theirs, as far as frames are left |
| Muxing.OutputFile.WritePacket | ffmpeg-4.2.2/fftools/ffmpeg.c:689-822 | a call is the limit, the count, the queue or the muxing stage, for its stream only; it fails where the program exits |
| Muxing.OutputFile.RepairTimes | ffmpeg-4.2.2/fftools/ffmpeg.c:763-797 | the repair of timestamps, and the exit with exit_on_error |
| Muxing.OutputFile.ScaleTimes | ffmpeg-4.2.2/fftools/ffmpeg.c:735-761 | the timestamps and duration in the time base of the stream |
| Muxing.OutputFile.SendQueued | ffmpeg-4.2.2/fftools/ffmpeg.c:3006-3011 | the whole queue of a stream goes to the muxing stage in order, until the program exits |
| Muxing.OutputFile.FlushQueues | ffmpeg-4.2.2/fftools/ffmpeg.c:2998-3012 | every stream is opened in order, until the program exits |
| Muxing.OutputFile.CheckInitOutputFile | ffmpeg-4.2.2/fftools/ffmpeg.c:2971-3015 | nothing happens before all streams are initialized; then each stream is opened and its whole queue muxed in order |
| Muxing.GuessIsMedian | ffmpeg-4.2.2/fftools/ffmpeg.c:770-773 | the sum without least and greatest is the median of the three times |
| Muxing.RepairedInOrder | ffmpeg-4.2.2/fftools/ffmpeg.c:763-797 | pts >= dts, and dts is raised by the least amount that keeps it rising |
| Muxing.InOrderUnchanged | ffmpeg-4.2.2/fftools/ffmpeg.c:763-797 | timestamps in order are left alone |
| Muxing.PtsNotBeforeDts | ffmpeg-4.2.2/fftools/ffmpeg.c:763-774 | over every run packets leave with pts >= dts when both are set |
| Muxing.DtsRises | ffmpeg-4.2.2/fftools/ffmpeg.c:775-798 | over every run the dts strictly rises (does not fall with TS_NONSTRICT) as long as packets have one |
| Muxing.MuxedAreRepaired | ffmpeg-4.2.2/fftools/ffmpeg.c:763-798 | over every run each packet leaves as the repair of what reached the muxing stage, after the dts of the one before |
| Muxing.LeavesAs | ffmpeg-4.2.2/fftools/ffmpeg.c:763-798 | over every run: a dts after its pts makes both the median of the two and the next dts that would do; then a dts of a video, audio or subtitle stream that is not after the last one becomes the least that is, and a pts not before it is at least that; nothing else changes |
| Muxing.PutExitsIff | ffmpeg-4.2.2/fftools/ffmpeg.c:703-791 | in every run a packet makes the program exit exactly if the stream may have it, and before the header the queue holds max(8, limit) packets, or after it the dts is too low and that is an error |
| Muxing.HeaderIff | ffmpeg-4.2.2/fftools/ffmpeg.c:2971-2992 | over every run the header has been written exactly if it was tried once all streams were initialized |
| Muxing.TimesKept | ffmpeg-4.2.2/fftools/ffmpeg.c:735-761 | over every run a packet keeps its pts and dts in seconds, from the time base in which it came to that of its stream, to within half a tick, unless the stream drops them; so does a positive duration, or that of one frame at a constant frame rate |
| Muxing.TimestampsStay | ffmpeg-4.2.2/fftools/ffmpeg.c:735-761 | a packet has no timestamp exactly if it came without one or the stream drops them, for times more than half a tick after the number that stands for none |
| Muxing.AcceptedAreFirst | ffmpeg-4.2.2/fftools/ffmpeg.c:703-709 | over every run a stream accepts all packets given to it, in order, or if they are counted here the first ones up to the limit |
| Muxing.AfterNoDts | ffmpeg-4.2.2/fftools/ffmpeg.c:778-798 | over every run a packet right after one without dts leaves with only its pts repaired |
| Muxing.DtsRisesIff | ffmpeg-4.2.2/fftools/ffmpeg.c:775-798 | over every run, a dts has risen over the last one before it exactly if no packet without dts lies between, or its own dts, guessed or not, had risen already |
| Muxing.NoDtsForgets | ffmpeg-4.2.2/fftools/ffmpeg.c:798 | packets with dts 10, none, 5 leave as they are |
| Muxing.EachOnceInOrder | ffmpeg-4.2.2/fftools/ffmpeg.c:711-733 | over every run packets reach the muxing stage in the order accepted, each once, in the time base they were in |
| Muxing.CountsWithinLimits | ffmpeg-4.2.2/fftools/ffmpeg.c:703-724 | over every run the queue holds at most max(8, limit) packets, and frame_number counts the accepted ones up to max_frames |
| CommandLine.LookUp | ffmpeg-4.2.2/fftools/cmdutils.c:218-229 | find_option finds the first option whose name is the part before the colon |
| CommandLine.NameLength | ffmpeg-4.2.2/fftools/cmdutils.c:220-221 | the length of the name up to its first colon |
| CommandLine.MatchGroupSeparator | ffmpeg-4.2.2/fftools/cmdutils.c:642-654 | finds the first group with this separator, or none |
| CommandLine.OptionParseContext.FinishGroup | ffmpeg-4.2.2/fftools/cmdutils.c:662-688 | the options so far become a group with its file, and none are left |
| CommandLine.OptionParseContext.AddOpt | ffmpeg-4.2.2/fftools/cmdutils.c:693-703 | an option goes to the globals or to the current group |
| CommandLine.OptionParseContext.TakeOption | ffmpeg-4.2.2/fftools/cmdutils.c:802-818 | an option of the program takes the next argument as its kind wants, or fails for want of one |
| CommandLine.OptionParseContext.SplitCommandline | ffmpeg-4.2.2/fftools/cmdutils.c:753-857 | the loop over the arguments gives what the recursive splitter gives, with the same errors |
| CommandLine.SplitPrinted | ffmpeg-4.2.2/fftools/cmdutils.c:753-857 | whatever may be printed is split into what it was |
| CommandLine.SplitIsPrintable | ffmpeg-4.2.2/fftools/cmdutils.c:753-857 | whatever splitting gives may be printed, except a clashing global option that was the last argument |
| CommandLine.RoundTrip | ffmpeg-4.2.2/fftools/cmdutils.c:753-857 | for every command line that does not end in a clash: printing what was split and splitting again gives the same lists |
| CommandLine.LineRoundTripsIff | ffmpeg-4.2.2/fftools/cmdutils.c:821-844 | a command line without groups, or whose clash is not also the name of an AVOption on it, comes back exactly if it does not end in the clash, or gives only global options and AVOptions that are the clash with itself as value |
| CommandLine.ClashReturns | ffmpeg-4.2.2/fftools/cmdutils.c:821-844 | the clash three times: an AVOption, and a clash at the end, that come back |
| CommandLine.RoundTripsIff | ffmpeg-4.2.2/fftools/cmdutils.c:821-844 | the round trip holds for every command line exactly without such a clash |
| CommandLine.ClashBreaks | ffmpeg-4.2.2/fftools/cmdutils.c:821-844 | for every clash a command line that does not come back |
| CommandLine.GroupsCommute | ffmpeg-4.2.2/fftools/cmdutils.c:662-688 | groups of different lists may be given in either order |
| CommandItems.FindsNamed | ffmpeg-4.2.2/fftools/cmdutils.c:218-229 | find_option finds the first option that is named by the whole or by what comes before its first colon, and none exactly if there is none |
| CommandItems.SplitsIff | ffmpeg-4.2.2/fftools/cmdutils.c:753-857 | a command line is split into given lists exactly if it is made of items (files, ends of groups, options of each kind, AVOptions, negations, dashes) that mean them: global options in order, and for every file of a list the options and AVOptions since the file before it |
| CommandItems.FailsIff | ffmpeg-4.2.2/fftools/cmdutils.c:776-844 | it fails with an error exactly if that stands right after such items: the end of a group or an option without its argument, a refused value, or a name that is nothing |
| CommandItems.LineRead | ffmpeg-4.2.2/fftools/cmdutils.c:753-857 | every command line is the one or the other |

## Left out

- Codecs, filters, demuxers, muxers, SDL and devices are foreign code or I/O; what they answer is a parameter or a choice of the environment.
- Allocation failure, logging and statistics; where the program exits, the model's operation fails.
- The overflow of 64-bit timestamps, and the rounding of `double`: timestamps are integers, and times in `VideoSync` reals.
- The headers of frames in `decode_p_frame`, the exchange of buffers between frames, `init_mv` and the tables `mv`, `ff_zigzag_direct` and `dequant_table`: the tables are parameters (the last two with the properties that `IBlock.GoodTables` names).
- `idct`, `idct_put`, `decode_i2_frame`, and the sizes at the start of an I-frame: `IFrame` begins with the two streams, which read as zeros past their ends. DecodeBoth is a part of the function in the source.
- VlcBuild.VLC.InitVlc: a codeword of 10 to 18 bits that begins one of more than 18 is not a clash: build_table may take over an entry without a test, and whether it does depends on the order in which qsort leaves equal words. What becomes of a code with such a pair is not described; one that read_huffman_tables gives has none. qsort is an insertion sort. The table grows as a sequence, and the codes of a group are shortened in a new sequence. GroupEnd, FillCells, BuildBelow and Sweep are parts of `build_table`.
- BlockSymbols.BlockRead: a block whose symbols or magnitude bits run out, where zeros are read, is not spoken of.
- PFrame.FourXContext.DecodeBlock: the pointers dst and src are a pixel position; when decoding fails, the partly painted frame is not described.
- MotionCopy.CopyRow: the switch on the width stands inside the row loop here and around it in the source.
- SeekSafety.SeekSafety: one decoder thread and one stream; subtitles, and the start of a new decoder thread when a stream is changed, are not modelled. A filter graph set up anew for other reasons than the serial only has fewer sources.
- FrameRing.RefinesQueue: a frame is its number; packets are only counted, since the decoder thread may sleep for want of one.
- BsfChain.OutputStream.OutputPacket: filters do not fail, and a blank packet inside a chain, which av_bsf_send_packet takes for the end, does not occur. MovePackets is the loop of the function in the source.
- LoopTiming.InputFile.ProcessInput: the dts, and the changes of the offset of a file at discontinuities.
- LoopTiming.LoopsInOrder: the offset of the file does not change, a stream without any timestamp (whose difference of extremes overflows in the source) is not spoken of, and the packets of a later playing are none earlier than the earliest of the first.
- VideoSync.FrameConservation: the counts of duplicates and drops are those of one stream; the program's counters are their sums over all video streams.
- VideoCounts.CountsMean: runs with a recording time or a skipped call are those of `VideoSync.ReportBalancesIff`.
- VideoRates.VfrRun: runs that reach the limit on frames, the recording time or the skip are not spoken of, as in PassRun and VsCfrDrift.
- VideoSync.OutputStream.DoVideoOut: the duration of a picture is a parameter (ffmpeg.c:1074-1087), as is the sync method that VSYNC_AUTO stands for (ffmpeg.c:1103-1119); forced key frames and what the encoder gives out are not modelled. CountFrames and EncodeFrames are parts of the function in the source.
- Muxing.OutputFile.WritePacket: errors of av_interleaved_write_frame, which close the stream, are not modelled. RepairTimes and ScaleTimes are parts of the function in the source, and SendQueued and FlushQueues of `check_init_output_file`.
- CommandLine.LineRoundTripsIff: a line with groups that ends in a clash, and has an AVOption of the clash's name, may come back or not; no condition short of comparing the two splits is given for these lines.
- CommandLine.OptionParseContext.SplitCommandline: TakeOption is a part of the function in the source, as NameLength is of find_option, the dictionaries of AVOptions are the list of what was put in them, and whether a name is an AVOption does not depend on its value.
- The conversion of arguments on Windows, and what is done with options after splitting.
