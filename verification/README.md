# Verified models of the Whitebox signal path, driver and libraries

The project models five independent parts of a software-defined radio and proves what each is
for.  `dafny verify dfyconfig.toml` checks all of it.

* **CIC filters** (`Registers`, `MovingSums`, `Dsp`, `CicInterpolator`, `CicDecimator`).  The
  transmit and receive filters as clocked register files: combs, zero stuffer or downsampler,
  accumulators and truncator, each a function from the old signals to the next ones, all registers
  wrapping at the widths the design computes.  Main results: for every order, delay and rate the
  recursive form is the moving sum, and no wrap-around reaches the output.
* **JSON** (`Json`, `JsonParser`, `JsonLiterals`, `JsonMinify`, `JsonPrinter`, `JsonPrintBuffer`,
  `JsonList`).  The text of a tree is one function, `Json.Text`; the parser reads it back, and every
  other way to write a string literal; both printers produce it within the space they compute, the
  minifier turns the formatted one into the unformatted one, and the child lists edited in place are
  sequences.
* **Transmit streaming** (`UserSource`, `Pdma`, `Transmit`, `Driver`).  The ring between the
  writer and the DMA channel, the two-slot channel with its device, and the system calls.  A
  call takes its interruptions from a script that may hold any completions, interrupts, errors and
  signals between its steps, so a statement about every script is one about every interleaving of
  those.  Ghost fields record the written stream, the regions handed to the device and the
  bytes completed.
* **WebSocket client** (`WebsocketSpec`, `WebsocketFrames`, `WebsocketClient`).  The
  byte-at-a-time receive machine as a function, its meaning on frames, sequences of frames and
  messages of RFC 6455, and the machine on its own buffers refining the function.
* **HTTP/2** (`Http2Frames`, `Http2`, `Http2Settings`) and **HPACK** (`HuffmanTables`,
  `HuffmanTrie`, `Huffman`, `Hpack`).  The frame parser and the frame and settings writers of RFC
  7540; the table-driven Huffman decoder of RFC 7541, whose tables are shown to be the trie of the
  code in Appendix B, and the reading of lengths and values into the header buffer.

Code that works in place is a class or a method with a loop, proved against a function; the laws
are lemmas about the functions.

Where the code does less than it is for, the model keeps the code and the exact condition is proved:

* A CIC shift of 2 has no branch (`CicInterpolator.HostShiftHandledIff`, `CicInterpolator.Interpolate`).
* A synchronisation in the stopping state that a broken one leaves returns 0 without doing anything
  (`Driver.Device.Fsync`, with a run in `Driver.SyncAfterBrokenSync`).
* A write of more bytes than the ring has left before its end waits for ever, even on an empty
  ring (`Driver.Device.Write`), and one whose size is no multiple of four loses its last bytes
  (`UserSource.UserSource.Produce`, `Driver.Device.Write`).
* A DMA transfer covers its region for every region of a ring only if the frame size is below 2^16
  or the ring has at most 2^18 bytes (`Transmit.TransfersAreWhole`).
* A ping of 125 bytes, which RFC 6455 allows, is not answered (`WebsocketFrames.FrameRead`).
* The escape of U+0000 in a string literal is dropped (`JsonLiterals.LiteralMeans`).
* A frame with a payload for a stream that has no connection, unless it makes the stream, leads the
  parser to a null link (`Http2Frames.FrameFaults`).
* A window that sending has overdrawn cannot be raised by an update that leaves it negative
  (`Http2Frames.WindowUpdateRead`, `Http2.UpdateAfterSending`, with a run in
  `Http2.NegativeWindowRefused`).
* A header value needs one byte more than it takes (`Hpack.ValueRead`), an empty one in either coding
  runs on (`Hpack.ValueEndsIff`, `Hpack.EmptyValueRunsOn`), and the code for the end of a string is
  delivered as a zero (`Huffman.DecodesFaithfullyIff`).

`HuffmanTables.dfy` and `HuffmanTrie.dfy` hold the tables of the repository entry by entry; the
case lists in the second were generated from them.

## Model

| member | source | states |
|---|---|---|
| `MovingSums.SumsAndDifferencesCancel` | hdl/duc.py:393-424 | k running sums of k differences at distance d are the k-fold moving sum of length d: the algebra behind the comb and accumulator pipeline, for every order and stream |
| `MovingSums.StuffingScalesDistance` | hdl/duc.py:188-208 | differencing before the zero stuffer at distance M is differencing after it at distance R*M, so combs at the low rate stand for combs at the high rate |
| `MovingSums.StuffedMovingSumBound` | hdl/duc.py:337-341 | a moving sum of a zero-stuffed bounded stream is bounded by the gain formula: the growth that the register widths pay for |
| `CicInterpolator.LateGain` | hdl/duc.py:337-341 | the division by the rate in the gain of a late stage leaves no remainder, so the integer reading of the formula is exact |
| `CicInterpolator.GainGrowsWithRate` | hdl/duc.py:386-391 | widths computed for the largest rate also serve every smaller rate |
| `CicInterpolator.WidthHolds` | hdl/duc.py:343-348 | a value within input range times gain fits a register of the stage width |
| `CicInterpolator.CombKeepsAt` | hdl/dsp.py:514-525 | one clock of a wrapping comb keeps it at its closed form: the delay line holds the last M inputs, the output is the next difference modulo the register width |
| `CicInterpolator.StufferKeepsAt` | hdl/duc.py:188-208 | one clock keeps the zero stuffer at its closed form: the sample once every R clocks, valid zeros in between |
| `CicInterpolator.AccumKeepsAt` | hdl/dsp.py:426-438 | one clock keeps an accumulator at its running sum, even when its input differs from the exact value by multiples of the narrower register size |
| `CicInterpolator.StepKeepsAt` | hdl/duc.py:393-440 | the whole clocked pipeline, all stages loading at once, keeps every register at its closed form, for any order, delay and rate |
| `CicInterpolator.LastCombCarried` | hdl/duc.py:343-348 | with a delay of one the last comb register is a bit too narrow; the wrong carry it leaves is undone by the first accumulator |
| `CicInterpolator.SupportedIsValid` | hdl/duc.py:386-391 | for every rate up to the one built for and every input that fits, all widths suffice for the whole run |
| `CicInterpolator.LastAccumulatorExact` | hdl/duc.py:411-424 | at every clock the last accumulator holds the exact integer N-fold moving sum, not merely its residue |
| `CicInterpolator.InterpolatorIsMovingSum` | hdl/duc.py:353-440 | from reset, for all orders, delays, rates up to the largest and inputs spaced R clocks apart, the last valid stream is the zero-stuffed input under an N-fold moving sum of length R*M, after 2N+1 clocks |
| `CicInterpolator.IdealFits` | hdl/duc.py:350-351 | shifted by the computed shift, the ideal output fits the output register |
| `CicInterpolator.StepKeepsOut` | hdl/duc.py:44-108 | the output register holds the floor of the exact sum over 2^shift for a shift that has a branch, and keeps its old value otherwise |
| `CicInterpolator.Filter.Clock` | hdl/duc.py:393-440 | one clock edge of the register file is one step of the pipeline |
| `CicInterpolator.Interpolate` | hdl/duc.py:353-440 | a recording clocked through a fresh filter comes out as floor(moving sum / 2^shift), with exact count of outputs; for a shift without a branch it comes out as zeros |
| `CicInterpolator.HostShiftHandledIff` | lib/whitebox.c:321-330 | the host formula (order 4, delay 1, 9 bits in, 10 out) yields a shift the hardware handles exactly when the rate is at most 128 and not 2 |
| `Dsp.ShiftLine` | hdl/dsp.py:461-485 | the loop over the delay elements shifts the line by one |
| `Dsp.ClockCombs` | hdl/duc.py:393-405 | clocking the comb stages one by one from old signals is the simultaneous step of all |
| `Dsp.ClockAccums` | hdl/duc.py:411-424 | the same for the accumulators |
| `Dsp.FloorFits` | hdl/dsp.py:529-570 | a value of the wide register, divided by 2^shift and rounded down, fits the register that is narrower by the shift |
| `CicDecimator.AccumKeepsAt` | hdl/dsp.py:426-438 | an overflowing accumulator stays congruent to the exact running sum |
| `CicDecimator.DownKeepsAt` | hdl/ddc.py:30-52 | the downsampler passes every R-th sample after an idle clock and blanks the others |
| `CicDecimator.CombKeepsAt` | hdl/dsp.py:514-525 | a comb fed every R clocks holds the next difference at distance R*M, modulo the width, from any starting contents once its line is full |
| `CicDecimator.StepKeepsAt` | hdl/ddc.py:132-172 | the whole receive pipeline keeps every register at its closed form modulo the width |
| `CicDecimator.IdleClockStarts` | hdl/ddc.py:44-50 | one idle clock brings any register contents to the start of a run |
| `CicDecimator.LastCombExact` | hdl/ddc.py:97-101 | although the integrators overflow without limit, the last comb output is the exact moving sum |
| `CicDecimator.DecimatorIsMovingSum` | hdl/ddc.py:103-172 | in every gap-free run after an idle clock the k-th output is the N-fold moving sum of length R*M at input R*(k+1)-1, from reset at once and from any contents once N*M outputs have passed |
| `CicDecimator.StepKeepsOut` | hdl/dsp.py:555-570 | one clock of the truncator keeps the output register at the floor of the moving sum wherever the last comb is known, whatever the registers held before the run |
| `CicDecimator.DecimatorOutput` | hdl/ddc.py:103-172 | what leaves the filter at clock 2N + 1 + R*(k+1) is valid and the floor of the moving sum, from reset at once and from any register contents once N*M outputs have passed |
| `CicDecimator.Filter.Clock` | hdl/ddc.py:132-172 | one clock edge of the receive registers is one step of the pipeline |
| `CicDecimator.Decimate` | hdl/ddc.py:103-172 | a gap-free recording comes out as the floor of its moving sums, with the exact number of outputs |
| `CicDecimator.DecimateAgain` | hdl/ddc.py:103-172 | a filter that holds anything, clocked through one idle clock and a recording, shows the floor of the k-th moving sum on its output register at the clock given, for every k from N*M on |
| `Json.NatTextValue` | lib/cJSON.c:147-167 | the digits printed for a natural number stand for that number |
| `JsonParser.EscapeReadsBack` | lib/cJSON.c:205-242 | every escape the printer writes is read back as the character it stands for, in one step |
| `JsonParser.StringReadsBack` | lib/cJSON.c:192-249 | a printed string is read back with every character, whatever quotes, backslashes or control characters it holds, and reading stops behind it |
| `JsonParser.NumberReadsBack` | lib/cJSON.c:96-115 | a printed integer is read back as itself, up to the character that ends it |
| `JsonParser.ValueReadsBack` | lib/cJSON.c:357-370 | any printed tree at any depth, in the middle of any text, parses back to itself and consumes exactly its own text |
| `JsonParser.ArrayReadsBack` | lib/cJSON.c:406-431 | the same for arrays |
| `JsonParser.ObjectReadsBack` | lib/cJSON.c:514-547 | the same for objects, with names and nesting |
| `JsonParser.RoundTrip` | lib/cJSON.c:323-343 | parsing the text printed for any tree gives the tree and consumes the whole text, formatted or not, with or without the check for trailing text |
| `JsonLiterals.EscapedCodePoint` | lib/cJSON.c:216-237 | the escape of any Unicode scalar value, as one \u group or a surrogate pair and with digits of either case, is turned into its UTF-8 bytes; that of zero into nothing |
| `JsonLiterals.Utf8Decodes` | lib/cJSON.c:229-237 | those bytes are the ones that section 3 of RFC 3629 decodes to the same scalar value |
| `JsonLiterals.SpellingsRead` | lib/cJSON.c:202-247 | the copying loop, run over any sequence of characters each written in any of its ways, stops at the closing quote with what they stand for |
| `JsonLiterals.StoredMeant` | lib/cJSON.c:219 | what is stored is the UTF-8 of the text meant exactly when the text has no zero |
| `JsonLiterals.LiteralMeans` | lib/cJSON.c:192-252 | a literal of any characters, each written as itself in UTF-8, by its letter escape or by its 16-bit units, follows the grammar and is parsed up to its closing quote into the UTF-8 of the text it means, exactly when that text has no zero; zeros are dropped |
| `JsonParser.SkipSpace` | lib/cJSON.c:320 | the loop skips exactly the leading blanks |
| `JsonParser.ReadNumber` | lib/cJSON.c:96-115 | the number loops compute the specified number and end |
| `JsonParser.ReadString` | lib/cJSON.c:192-249 | the copying loop computes the specified string and end, for any text |
| `JsonParser.StoresCounted` | lib/cJSON.c:197-244 | for a literal that follows the grammar, the second pass stops at the quote where the first stopped and stores at most what the first counted |
| `JsonParser.PrintedIsLiteral` | lib/cJSON.c:284-305 | what the printer writes between quotes follows the grammar |
| `JsonParser.CopyLiteral` | lib/cJSON.c:197-248 | the two passes in place: every byte of the string and its terminator is stored inside the block that the first pass sized |
| `JsonParser.ReadValue` | lib/cJSON.c:357-370 | the recursive descent computes the specified value, or fails where it fails |
| `JsonParser.ReadArray` | lib/cJSON.c:406-431 | the loop over items refines the specification |
| `JsonParser.ReadObject` | lib/cJSON.c:514-547 | the loop over members refines the specification |
| `JsonParser.ParseText` | lib/cJSON.c:323-339 | the entry point, including the optional check for trailing text |
| `JsonMinify.StringStays` | lib/cJSON.c:745 | a string literal passes through the minifier untouched, whatever it contains |
| `JsonMinify.ValueMinifies` | lib/cJSON.c:735-750 | the formatted text of a tree at any depth, in the middle of any text, minifies to its unformatted text |
| `JsonMinify.MinifyIsUnformatted` | lib/cJSON.c:735-750 | minifying the formatted print of any tree gives the unformatted print, and that print leaves no literal and no comment open |
| `JsonMinify.ClosedStep` | lib/cJSON.c:744-745 | in a text without open literals and comments, what the code steps over ends inside the text |
| `JsonMinify.MinifyInPlace` | lib/cJSON.c:735-750 | the in-place loop, reading ahead of where it writes, leaves the minified text and its terminator inside the block of the text and its own terminator; two more terminators are needed only when a literal or a comment is left open |
| `JsonMinify.MinifyPrinted` | lib/cJSON.c:735-750 | the block of a formatted print, no larger than it needs, becomes the unformatted print |
| `JsonPrinter.StringSpace` | lib/cJSON.c:256-282 | the first pass over a string computes exactly the space its escaped text takes |
| `JsonPrinter.WriteString` | lib/cJSON.c:252-307 | the second pass writes the escaped text and stays inside that space |
| `JsonPrinter.TextNulFree` | lib/cJSON.c:372-403 | the text of a tree without NUL characters has none, so reading it back up to the terminator loses nothing |
| `JsonPrinter.PrintValue` | lib/cJSON.c:372-403 | the two-pass printer renders exactly the text of the tree in a block it sized itself |
| `JsonPrinter.PrintArray` | lib/cJSON.c:434-511 | children are printed first, their lengths added up, and the text composed within the computed block |
| `JsonPrinter.ComposeArray` | lib/cJSON.c:485-509 | every write of the composition is inside the block |
| `JsonPrinter.PrintObject` | lib/cJSON.c:550-658 | the same for objects, with names, tabs and line breaks |
| `JsonPrinter.ComposeObject` | lib/cJSON.c:627-656 | every write of the composition is inside the block |
| `JsonPrintBuffer.Pow2gt` | lib/cJSON.c:117 | the bit-smearing trick yields the least power of two that reaches its argument |
| `JsonPrintBuffer.SameSize` | lib/cJSON.c:117-128 | the size the buffer grows to, computed over integers, is the one the bits give, for every size up to 2^30 |
| `JsonPrintBuffer.PrintBuffer.Ensure` | lib/cJSON.c:121-136 | after a successful call there is room for the wanted bytes and what was printed is preserved; a call does not fail while twice the total fits the heap; after a failure the buffer is gone |
| `JsonPrintBuffer.PrintBuffer.Update` | lib/cJSON.c:138-144 | the offset is moved to the terminator of what was printed |
| `JsonPrintBuffer.PrintBuffer.PrintItem` | lib/cJSON.c:372-403 | the growing-buffer printer appends exactly the text of the item, or fails and drops the buffer |
| `JsonPrintBuffer.PrintBuffer.PrintArray` | lib/cJSON.c:453-480 | the same for arrays |
| `JsonPrintBuffer.PrintBuffer.PrintFullObject` | lib/cJSON.c:570-610 | the same for objects |
| `JsonPrintBuffer.PrintBuffered` | lib/cJSON.c:345-353 | for every starting size and both formats the result is the text of the tree |
| `JsonPrintBuffer.PrintBothWays` | lib/cJSON.c:342-353 | the growing-buffer print equals the two-pass print, for every tree, starting size and format, and exists whenever the heap holds twice the text |
| `JsonList.ItemAt` | lib/cJSON.c:662 | the walk finds the child at the place meant, with the code's reading of negative and large numbers |
| `JsonList.ArraySize` | lib/cJSON.c:661 | the walk counts the children |
| `JsonList.AddItemToArray` | lib/cJSON.c:666-671 | appending to the linked list is appending to the sequence; nothing happens for a null item |
| `JsonList.InsertItemInArray` | lib/cJSON.c:684-685 | inserting into the linked list is inserting into the sequence, at the end when the place is past it; only there must the item bring no links along |
| `JsonList.DetachItemFromArray` | lib/cJSON.c:677-678 | detaching removes that item from the sequence, unlinks it on both sides, and leaves the list alone when there is none |
| `JsonList.ReplaceItemInArray` | lib/cJSON.c:686-688 | replacing puts the new item in the place of the old, which is unlinked and given back |
| `JsonList.Duplicate` | lib/cJSON.c:708-733 | a duplicate is a tree of fresh nodes only, none reached twice, correctly linked and equal to the original but for the reference marks; without recursion it is the root alone |
| `JsonList.DuplicateChildren` | lib/cJSON.c:722-731 | the loop hangs one copy per child, in order |
| `JsonList.TidyRoots` | lib/cJSON.c:722-731 | linking the roots of disjoint subtrees touches no node inside them |
| `Bits.MaskIsRemainder` | driver/whitebox_user_source.c:44-66 | masking with size - 1 is the remainder, of negative differences too, for every power-of-two size |
| `Bits.WordMaskIsRemainder` | driver/whitebox_user_source.c:54-85 | masking with size - 4 is the remainder rounded down to a whole word |
| `UserSource.RingCounts` | driver/whitebox_user_source.c:60-80 | the circular-buffer macros compute the queue length and its contiguous part |
| `UserSource.RingSpaces` | driver/whitebox_user_source.c:38-48 | the free space, rounded down to words, is the free words but one, up to the end of the buffer |
| `UserSource.UserSource.SpaceAvailable` | driver/whitebox_user_source.c:38-48 | the offered region is the largest contiguous one and holds no queued byte |
| `UserSource.UserSource.Produce` | driver/whitebox_user_source.c:50-58 | producing appends to the queue exactly the whole words among the bytes put behind it |
| `UserSource.UserSource.DataAvailable` | driver/whitebox_user_source.c:60-70 | the offered data is the longest contiguous prefix of the queue, empty only if the queue is |
| `UserSource.UserSource.DataTotal` | driver/whitebox_user_source.c:72-80 | the total is the queue length |
| `UserSource.UserSource.Consume` | driver/whitebox_user_source.c:82-87 | consuming drops whole words off the front of the queue |
| `UserSource.UserSource.Work` | driver/whitebox_user_source.c:89-109 | copying into an offered region leaves the queue as it is, also when the copy fails half way or the ring is mapped |
| `Pdma.Channel.Clear` | driver/pdma.c:391-426 | both slots stopped, the next one A again |
| `Pdma.Channel.Request` | driver/pdma.c:428-461 | a channel in use is refused unchanged; otherwise it is taken and cleared |
| `Pdma.Channel.StartB` | driver/pdma.c:294-310 | starting slot B also lets a held-back count of slot A go; every count is written once |
| `Pdma.Channel.StartA` | driver/pdma.c:311-327 | starting slot A writes its count once, or holds it back in ping-pong mode |
| `Pdma.Channel.Start` | driver/pdma.c:259-341 | a start is accepted exactly when the channel is in use and a slot is free; slots alternate; a refused start changes nothing; the third branch is never reached with a free slot |
| `Pdma.Channel.BuffersAvailable` | driver/pdma.c:344-389 | the number of free slots; a held-back count is released |
| `Pdma.Channel.HardwareFinish` | driver/pdma.c:294-331 | the device finishes the oldest transfer whose count it was given |
| `Pdma.Channel.Acknowledge` | driver/pdma.c:534-556 | the interrupt stops exactly the slots reported complete and reports the last of them |
| `Pdma.AskAndStart` | driver/pdma.c:344-389 | a start after asking succeeds exactly when a positive number of buffers was reported |
| `Pdma.Drive` | driver/pdma.c:259-389 | in every run of starts, questions, completions and interrupts the accepted transfers go to A, B, A, B in turn, and the count of each is written to the device once, or not yet while the first is held back |
| `Transmit.Transmitter.Launch` | driver/whitebox_rf_sink.c:100-113 | the slot taken counts the mapped bytes; the device is told the number of words modulo 2^16 |
| `Transmit.Transmitter.Hand` | driver/whitebox_tx.c:60-94 | the region read at the moment of starting leaves the ring and joins the regions handed over, in order |
| `Transmit.Transmitter.Exec` | driver/whitebox_tx.c:27-97 | a transfer is started exactly when the lock is free, the ring holds a word, a slot is free and the mapping succeeds; the region is the largest prefix the frame size allows; the written stream stays handed regions plus ring, and no byte is lost |
| `Transmit.Transmitter.Callback` | driver/whitebox_tx.c:100-128 | a completion adds the slot's bytes to the statistics and hands the next region over, unless the attempt fails or there is none |
| `Transmit.Transmitter.Interrupt` | driver/whitebox_tx.c:100-128 | the bytes of every slot reported complete count as completed, exactly one further region is handed over if there is one, order and conservation are kept, and an idle channel is left alone |
| `Transmit.Transmitter.ClearChannel` | driver/whitebox_tx.c:13-25 | clearing accounts for what was in flight |
| `Transmit.Transmitter.Stop` | driver/whitebox_tx.c:130-141 | stopping succeeds exactly when both slots are stopped |
| `Transmit.TransferCovers` | driver/whitebox_rf_sink.c:100-104 | the sixteen-bit word count covers a mapped region exactly when the region is smaller than 2^18 bytes |
| `Transmit.TransfersAreWhole` | driver/whitebox_rf_sink.c:100-104 | no region of a ring is too large for the word count exactly when the frame size is below 2^16 or the ring has at most 2^18 bytes; each started transfer then counts its whole region (`Transmit.Transmitter.Exec`) |
| `Driver.Device.AwaitRoom` | driver/whitebox_driver.c:551-561 | waiting ends at once when the bytes fit already, and never when there are more of them than the ring has up to its end |
| `Driver.Device.Write` | driver/whitebox_driver.c:519-604 | a write takes all its bytes or none, copied or found in the mapped ring; only its whole words join the stream; in a receive state it is refused; on a drained ring and without errors it succeeds exactly when the bytes fit before the end of the ring and leave a word free, and above that bound it never does |
| `Driver.Device.Send` | driver/whitebox_driver.c:571-603 | copying, producing and the switch to streaming once the threshold is reached, with interrupts in between |
| `Driver.Device.Drain` | driver/whitebox_driver.c:626-646 | the drain loop ends with an empty ring, a hardware error or a signal |
| `Driver.Device.StopBoth` | driver/whitebox_driver.c:650-659 | the stop loop ends with both slots stopped or an error |
| `Driver.Device.StopTransmitting` | driver/whitebox_driver.c:618-679 | the three loops together: on success nothing is on its way and the device is idle |
| `Driver.Device.Fsync` | driver/whitebox_driver.c:606-691 | returning 0 from a transmit state leaves the ring empty, both slots stopped, the device idle and every byte transferred (or dropped by an earlier clear), whatever interrupts ran, exactly when the device is not in the stopping state that a broken synchronisation leaves; in that state it does nothing and returns 0 |
| `Driver.SyncAfterBrokenSync` | driver/whitebox_driver.c:606-691 | a run of a write, a synchronisation broken off by a hardware error and a second one that returns 0 with the written bytes still in the ring |
| `Driver.Device.Read` | driver/whitebox_driver.c:437-517 | a read in a transmit state is refused; otherwise only the receive channel is started |
| `Driver.Device.MmapRead` | driver/whitebox_driver.c:937-975 | the mapped read starts receiving only from idle |
| `Driver.Device.Crank` | driver/whitebox_rx.c:136-154 | clearing the channel and trying twice keeps half duplex and the transmit side, whatever interrupts come in between |
| `Driver.Device.RxExec` | driver/whitebox_rx.c:32-104 | an attempt starts a receive transfer exactly when the lock and a slot are free and the ring has room for more than a word; its size is the lesser of frame and room |
| `Driver.Device.StopReceiving` | driver/whitebox_rx.c:156-169 | stopping the receiver stops both receive slots before the device is idle |
| `Driver.Device.Interrupt` | driver/pdma.c:524-561 | interrupts at any point keep half duplex: a started transmit slot only in a transmit state, a started receive slot only in a receive state |
| `Driver.Run` | driver/whitebox_driver.c:437-691 | in every run of system calls with interrupts anywhere inside them: the bytes accepted are the regions handed to DMA followed by the ring, their number is ring plus started slots plus completed plus cleared, where only the clearing control call adds to cleared; and never are both channels started |
| `WebsocketSpec.RunAppend` | libwebsockets/lib/client-parser.c:24-434 | feeding bytes in two stretches is feeding them in one |
| `WebsocketSpec.LongRun` | libwebsockets/lib/client-parser.c:114-178 | the eight length bytes add up to the length, on both word sizes |
| `WebsocketSpec.LengthRun` | libwebsockets/lib/client-parser.c:58-178 | a length in any of its three forms is read as that length |
| `WebsocketSpec.PayloadRun` | libwebsockets/lib/client-parser.c:215-250 | a payload read byte by byte is delivered in pieces that fill the buffer |
| `WebsocketSpec.FrameRun` | libwebsockets/lib/client-parser.c:31-250 | a frame, header to end, from any leftover state |
| `WebsocketFrames.FrameRead` | libwebsockets/lib/client-parser.c:255-421 | what one frame shows and leaves: data in pieces, a ping kept if none is pending and it is at most 124 bytes long, a pong passed on, anything reserved dropped |
| `WebsocketFrames.FramesRead` | libwebsockets/lib/client-parser.c:24-434 | any sequence of unmasked frames without a closing one shows exactly what its frames show one by one, for every buffer of at least 125 bytes |
| `WebsocketFrames.DataInOrder` | libwebsockets/lib/client-parser.c:386-420 | the pieces join up to the data payloads in order, none empty, none larger than the buffer |
| `WebsocketFrames.MessageType` | libwebsockets/lib/client-parser.c:40-46 | every piece of a fragmented message carries the type of its first frame, with control frames in between |
| `WebsocketFrames.CloseEnds` | libwebsockets/lib/client-parser.c:263-286 | a closing frame is answered with its payload, or not if it is the answer, and nothing after it is read |
| `WebsocketFrames.FrameInside` | libwebsockets/lib/client-parser.c:31-250 | strictly inside a frame the machine is never in its initial state |
| `WebsocketFrames.NewExactlyAtEnds` | libwebsockets/lib/client-parser.c:24-434 | cut anywhere, the machine is in its initial state exactly at the ends of frames |
| `WebsocketClient.Client.StashPing` | libwebsockets/lib/client-parser.c:307-326 | the ping payload is kept, in the old block if it is large enough |
| `WebsocketClient.Client.SpillBuffer` | libwebsockets/lib/client-parser.c:253-421 | serving the buffer in place refines the specified step; the terminator behind what is passed on lies inside the buffer or its padding |
| `WebsocketClient.Client.PayloadByte` | libwebsockets/lib/client-parser.c:215-250 | a payload byte goes into the buffer, inside it, and the buffer is passed on when full or at the end |
| `WebsocketClient.Client.ReceiveByte` | libwebsockets/lib/client-parser.c:24-434 | one call of the machine on its own buffers refines the specified step |
| `WebsocketClient.Client.ReceiveAll` | libwebsockets/lib/client-parser.c:24-434 | any stretch of bytes refines the specified run |
| `Http2Frames.ReadBack` | libwebsockets/lib/http2.c:149-157 | the nine header bytes read back as length modulo 2^24, type, flags and stream, and equal the header exactly when every part fits |
| `Http2Frames.HeaderFilled` | libwebsockets/lib/http2.c:312-334 | nine bytes set the whole header whatever the last frame left in length and stream id |
| `Http2Frames.HeaderRun` | libwebsockets/lib/http2.c:312-407 | a written header is read as written from any leftover state |
| `Http2Frames.PayloadRun` | libwebsockets/lib/http2.c:219-276 | a payload is counted to its last byte and the frame is closed there |
| `Http2Frames.FrameRead` | libwebsockets/lib/http2.c:217-410 | a frame the parser accepts shows its header, its payload and its end, and nothing else |
| `Http2Frames.WindowUpdateRead` | libwebsockets/lib/http2.c:265-308 | a WINDOW_UPDATE, read from its first byte to its last whatever the parser was left with, is taken exactly when the window ends up between 0 and 2^31 - 1, and then raises that window and no other stream's |
| `Http2Frames.CreditTaken` | libwebsockets/lib/http2.c:299-302 | the unsigned comparison accepts exactly those sums |
| `Http2Frames.FrameRefused` | libwebsockets/lib/http2.c:344-405 | a header that is not accepted ends the connection with its ninth byte |
| `Http2Frames.FrameFaults` | libwebsockets/lib/http2.c:220-221 | a frame with an accepted header makes the parser follow a missing link exactly when it has a payload for a stream without a connection and is not one that makes the stream; then with its first payload byte, whatever follows |
| `Http2Frames.FramesRead` | libwebsockets/lib/http2.c:217-410 | any sequence of accepted frames is split into those frames |
| `Http2Frames.SplitExactlyAtEnds` | libwebsockets/lib/http2.c:270-276 | cut anywhere, the parser awaits a header exactly at the ends of frames, empty ones included |
| `Http2.Connection.Parse` | libwebsockets/lib/http2.c:217-410 | one byte on the connection's own state, the windows of its streams included, refines the specified step |
| `Http2.Connection.FrameEnds` | libwebsockets/lib/http2.c:273-308 | the end of a frame sets the first window of the connection and raises a window, as specified |
| `Http2.Connection.ParseAll` | libwebsockets/lib/http2.c:217-410 | any stretch of bytes refines the specified run |
| `Http2.FrameWrite` | libwebsockets/lib/http2.c:143-157 | the header is written in place before the payload, nothing else changes, and data uses up credit |
| `Http2.WriteAndRead` | libwebsockets/lib/http2.c:143-157 | what one connection writes another splits off as it was, whatever it was left with |
| `Http2.UpdateAfterSending` | libwebsockets/lib/http2.c:162-166 | after any payload sent on a stream, an update of its window is taken exactly when credit less payload plus increment lies between 0 and 2^31 - 1: a window overdrawn by sending stays below zero until one update makes up for all of it |
| `Http2.NegativeWindowRefused` | libwebsockets/lib/http2.c:300-301 | a run from a new connection: a request, two bytes sent beyond the window of its stream, and an update of one byte that is refused |
| `Http2Settings.InterpretPayload` | libwebsockets/lib/http2.c:107-133 | the loop applies the entries in order, ignores unknown ones, and returns an error exactly when the length is no multiple of six |
| `Http2Settings.MySettings` | libwebsockets/lib/http2.c:425-431 | the loop writes exactly the entries that differ from the defaults |
| `Http2Settings.EntryBack` | libwebsockets/lib/http2.c:175-183 | a written entry is applied as written |
| `Http2Settings.SettingsRoundTrip` | libwebsockets/lib/http2.c:107-133 | read by a peer that starts from the defaults, what is sent reproduces the sender's table at every index from 1 |
| `HuffmanTrie.AllNodes` | libwebsockets/lib/huftable.h:1-513 | every state of the decoder is reached from an earlier one over one bit: the table is a trie |
| `HuffmanTrie.AllSymbols` | libwebsockets/lib/minihuf.c:25-305 | the code of every symbol in Appendix B of RFC 7541 leads to a terminal place that holds the symbol |
| `HuffmanTrie.AllBounded` | libwebsockets/lib/huftable.h:1-527 | no place leads outside the table |
| `Huffman.PathDecodes` | libwebsockets/lib/hpack.c:182-190 | the bits that lead to a state meet no symbol |
| `Huffman.SymbolDecodes` | libwebsockets/lib/hpack.c:182-190 | the code of a symbol decodes to it and to nothing else |
| `Huffman.StaysInside` | libwebsockets/lib/hpack.c:182-190 | whatever bits come, the position stays inside the table |
| `Huffman.SymbolsDecode` | libwebsockets/lib/hpack.c:518-547 | the codes of any symbols, the end of a string among them, decode to the symbols modulo 256 |
| `Huffman.DecodesFaithfullyIff` | libwebsockets/lib/hpack.c:533-541 | codes decode to the symbols they stand for exactly when the end of a string, which section 5.2 forbids, is not among them; in its place a zero is delivered |
| `Huffman.StringDecodes` | libwebsockets/lib/hpack.c:518-547 | the codes of a string, one behind the other, decode to the string |
| `Huffman.PaddingQuiet` | libwebsockets/lib/hpack.c:518-533 | up to seven ones reach no symbol |
| `Huffman.CodedDecodes` | libwebsockets/lib/hpack.c:517-547 | the octets of a coded and padded string decode to the string |
| `Huffman.SymbolsBounded` | libwebsockets/lib/hpack.c:518-547 | no more symbols come out than bits go in |
| `Huffman.EndOfStringDelivered` | libwebsockets/lib/hpack.c:533-534 | the code for the end of a string, which must not occur, is recognised and delivered as a zero |
| `Hpack.LengthRead` | libwebsockets/lib/hpack.c:488-515 | length octets of section 5.1 are read as the length they encode, with the Huffman flag, below 2^31 |
| `Hpack.Appended` | libwebsockets/lib/hpack.c:217-225 | appending succeeds exactly when at least one place stays free |
| `Hpack.DataRead` | libwebsockets/lib/hpack.c:517-576 | the octets of a value append what they stand for and a zero, exactly when there is room and one byte to spare |
| `Hpack.ValueRead` | libwebsockets/lib/hpack.c:488-577 | any value that is not empty, coded or not, is appended as it was before coding, exactly when the header buffer and the table of fragments have room |
| `Hpack.ValueEndsIff` | libwebsockets/lib/hpack.c:488-577 | with room, a value in either coding ends with its last octet exactly when it is not empty; after an empty one the reader is inside a value of which no octet is left |
| `Hpack.EmptyValueRunsOn` | libwebsockets/lib/hpack.c:548 | after an empty value in either coding, any octets that follow, up to 2^32 of them, are taken into the value as far as there is room: the length is counted down before it is tested |
| `Hpack.OctetBounded` | libwebsockets/lib/hpack.c:517-547 | one octet, coded or not, stands for at most eight bytes, so room for eight is room for the octet after an empty value |
| `Hpack.Reader.HuffmanOctet` | libwebsockets/lib/hpack.c:518-547 | the loop over eight bits refines decoding them |
| `Hpack.Reader.FragStart` | libwebsockets/lib/hpack.c:198-215 | a fragment is opened where the buffer stands, unless the token is none or the table is full |
| `Hpack.Reader.FragEnd` | libwebsockets/lib/hpack.c:227-234 | the value is closed with a zero |
| `Hpack.Reader.DataByte` | libwebsockets/lib/hpack.c:517-577 | one octet of a value on the reader's own buffers refines the specified step |
| `Hpack.Reader.Interpret` | libwebsockets/lib/hpack.c:488-577 | one octet of length or value refines the specified step |
| `Hpack.Reader.InterpretAll` | libwebsockets/lib/hpack.c:488-577 | any stretch of them refines the specified run |

## Left out

- CIC: the second (quadrature) channel, which repeats the first, and the `last` marker, which no result depends on.
- CIC: gaps in the input of the accumulators, which clear to zero on an invalid clock; the results are for the exact spacing.
- CIC: the values after the input has stopped; the methods stop with the last input.
- CIC: the simulator's registers, which raise an error on overflow; registers wrap, as the synthesised ones do.
- CIC: logarithms and the host's formula are read over integers.
- Dsp.ClockCombs: the signals of all stages are computed from the old ones in sequence, in place of concurrent processes.
- JSON: numbers that are no 32-bit integers, in the printers and in the round trip; the parser model keeps their mantissa and exponent apart.
- JSON: malformed texts beyond what the parser functions say of them.
- JsonMinify.MinifyInPlace: a text with an open literal or comment and no further terminators behind it; the result then depends on memory that is no part of the text.
- JSON: failing allocations, other than in the growing buffer; freeing.
- JsonParser.ReadString: the block the string is copied into, which `JsonParser.CopyLiteral` has for literals that follow the grammar; outside the grammar the two passes may stop at different places.
- JsonList.ReplaceItemInArray: the replaced node is given back, where the code deletes it.
- JSON: null names and null strings, and items looked up by name.
- JsonPrintBuffer.PrintBuffered: the returned pointer, which nested calls leave in the middle of the buffer, is modelled as an offset.
- Driver: opening and releasing the device, polling, the settings calls other than the clears, statistics other than the byte count.
- Driver: what the receive ring holds and whether receive slots overlap; only which receive slots are started, and when.
- Driver: the transmit data after the transfer has started; the ring may be overwritten before the transfer ends.
- Driver: the loopback mode, several processors (the spin locks are taken for granted but for the trylock, which may fail), and more than one DMA client.
- Driver.Device.StopBoth: the loop has no exit but success or a hardware error; when the script ends it returns a value of its own that stands for never returning.
- Driver.Run: the runs copy what they write; a write into a mapped ring is in `Driver.Device.Write`.
- Driver: system calls that overlap. The semaphore is let go while a call waits and before the receiver is started; that no other call starts meanwhile is an assumption.
- Transmit.Transmitter.Exec: the branch for a transfer finished at once is not modelled, as the sink never reports one.
- Pdma: the control and status registers other than start, count and completion, and the other seven channels of the interrupt loop.
- WebSocket: results for masked frames, whose short length keeps the mask bit; the machine itself includes them.
- WebSocket: protocol versions other than 13, active extensions, a missing callback or buffer.
- WebsocketSpec.Run: the user accepts everything; a refusal ends the connection, which `WebsocketSpec.Step` says.
- HTTP/2: the settings payload read byte by byte, whose index is off by one; goaway, ping and priority payloads; the client preface; stream objects beyond their ids and windows; credit used up by sending while frames are read.
- Http2Frames.FrameRead: the layers above agree to everything; what they may refuse is in `Http2Frames.Step`.
- HPACK: header names, whose parser is not part of this model; indexed headers, the dynamic table, table sizes, padding; the integer encoder, which omits the last octet.
- Hpack.LengthRead: lengths from 2^31, where the shift in the code has no defined value.
- Base64, the FIR filter, the audio ring, sockets and configuration.
