# Verified models of the emulator's tools and drivers

Dafny models of eight programs of this repository, each with proofs of what it is for. A
program that updates state in place is modelled by methods and classes on arrays and fields,
each proved equal to a function on values; the laws are lemmas about these functions.
Concurrency is a state machine over the steps of all participants, and its lemmas hold for
every schedule.

| program | modules |
|---|---|
| kernel cache decompressor and monitor extractor | `Bytes`, `LzssHistory`, `LzssStream`, `LzssDecoder`, `LzssContainer`, `LzssFormat` |
| block device driver | `BlockTransfer`, `BlockDevice`, `BlockConcurrency` |
| decimal printer | `Decimal` |
| IPC message printers and logging hooks | `MessageText`, `MessageReport`, `MessageBuffer`, `HookLog` |
| TCP tunnel | `Tunnel`, `AddressSpec` |
| trust cache builder | `HexText`, `TrustCache`, `TrustSearch` |
| KVM system-register hook | `SysRegs` |
| debugger list walkers | `ListWalk` |
| shared by several | `Common`, `Schedules` |

Conventions. Machine integers are mathematical integers with their wrap-around written out
(`% 0x1_0000_0000`, `% U64`). Shifts and masks are divisions and remainders by powers of two:
on the values that occur, `x >> k` is `x / 2^k`, `x & (2^k - 1)` is `x % 2^k`, and an `|` of
words without a common bit is a sum. Exceptions and error returns are constructors of result
types. Files are byte sequences; what a kernel, a socket or a debugger may answer is a parameter
or a nondeterministic choice.

The functions that methods are proved against are pinned in turn by laws in plain numbers,
bytes and texts, which name none of the model's constants: `LzssFormat` for the container,
`MessageReport` for the printed reports, and the members whose names end in `InBytes`,
`InNumbers`, `Means` or `Needs`.

Six places where the code does not do what one would expect, each stated exactly:

* The guard of the block driver that should stop a transfer past the end runs after the length
  has been clipped. It can never fire (`BlockTransfer.GuardNeverFires`), so the advertised range
  is what callers must keep; a block number outside it can wrap to a chunk that looks good
  (`BlockTransfer.OffsetsWrap`).
* The header of a trust cache counts blank lines, its body skips them. The count is right if and
  only if no line is blank (`TrustCache.CountIsRightUnlessBlank`).
* The hashes of a trust cache are sorted as text and searched as bytes. The keys come out in
  order if and only if case does not disturb the order (`TrustSearch.KeysSortedExactlyWhen`). If
  moreover the keys are distinct, a bisection finds every listed hash if and only if case does
  not disturb the order (`TrustSearch.SearchableExactlyWhen`); `TrustSearch.MixedCaseMissesAKey`
  is a list of which one hash is missed. Distinctness is needed: a key that is listed twice can
  be found in spite of the disorder (`TrustSearch.DuplicatesHideDisorder`).
* An LZSS container whose stream is empty decodes even if the file ends inside its header
  (`LzssContainer.DecodesExactlyWhen`, with the file in `LzssContainer.EmptyStreamInShortFile`).
* The debugger's iterators run for ever if and only if the links from the list head loop back to
  an element without passing the head (`ListWalk.NeverEndsExactly`); `ListWalk.SelfLinkNeverEnds`
  is a memory on which it happens.
* A tunnel that runs as a daemon closes descriptor 0. It keeps its descriptor discipline unless
  that is its own listening socket, which takes native sockets and a standard input that was
  closed at the start (`Tunnel.RunTunnel`).

`common_hooks/include/ipc-obj.h` defines the same mask for the `IMPHOLDASRT` and the `CIRCULAR`
bit; the model prints both from that bit, as the code does. Of the type names, those that the
code prints are modelled, not the longer lists in its comments.

## Model

| member | source | states |
|---|---|---|
| LzssHistory.LatestIsMostRecent | bootstrap_scripts/decompress_lzss.py:36-41 | `Latest(t, s)` is the greatest history index below t that is stored in ring slot s, never more than N back |
| LzssHistory.RingStep | bootstrap_scripts/decompress_lzss.py:58-62 | storing a byte in the current slot keeps "every slot holds the most recent history byte of that slot, spaces before the start" |
| LzssHistory.RingReadIsCopyBack | bootstrap_scripts/decompress_lzss.py:72-80 | reading slot `(i+k) & (N-1)` in the copy loop is reading a fixed distance in 1..4096 back from the current end of the output, overlap and `i == r` included |
| LzssHistory.CopyBackIsPeriodic | bootstrap_scripts/decompress_lzss.py:74-80 | each byte of a copy equals the byte `d` places before it in the result, also inside the copy itself |
| LzssStream.TokensAreLegal | bootstrap_scripts/decompress_lzss.py:66-73 | any stream splits into literals and matches with position below 4096 and length 3 to 18 |
| LzssStream.DecodingIsPrefixMonotone | bootstrap_scripts/decompress_lzss.py:44-80 | cutting a stream at any byte, also inside a match, only cuts the output |
| LzssStream.ExpansionBound | bootstrap_scripts/decompress_lzss.py:44-80 | the output is at most 144/17, hence at most 9 times, the stream |
| LzssStream.GroupRoundTrip | bootstrap_scripts/decompress_lzss.py:45-73 | behind a flag byte, token k is decided by bit k, and its body reads back as the token |
| LzssStream.SerializeRoundTrip | bootstrap_scripts/decompress_lzss.py:44-80 | every legal token sequence is what the reader makes of its serialised groups |
| LzssDecoder.RegisterDecidesEight | bootstrap_scripts/decompress_lzss.py:42-53 | the marker byte 0xFF00 set at a reload lasts for exactly eight decisions, and decision k is bit k of the flag byte |
| LzssDecoder.RegisterReload | bootstrap_scripts/decompress_lzss.py:45-51 | bit 8 is clear at the head of the loop if and only if all eight decisions are used, the initial 0 counting as used up |
| LzssDecoder.Emit | bootstrap_scripts/decompress_lzss.py:58-62 | one byte goes to the output and the ring; fails exactly when the output is full |
| LzssDecoder.CopyMatch | bootstrap_scripts/decompress_lzss.py:72-80 | the copy loop appends the history copy of the match; fails exactly when it does not fit |
| LzssDecoder.TakeLiteral | bootstrap_scripts/decompress_lzss.py:53-62 | a literal turn leaves the meaning of output plus remaining stream unchanged; says when the loop ends and when an index is out of range |
| LzssDecoder.TakeMatch | bootstrap_scripts/decompress_lzss.py:63-80 | the same for a match turn, which may end between its two bytes |
| LzssDecoder.Decode | bootstrap_scripts/decompress_lzss.py:44-80 | the loop terminates; it completes exactly when the announced stream is there and its expansion fits, and then the output is that expansion and the rest stays untouched |
| LzssDecoder.DecompressLzss | bootstrap_scripts/decompress_lzss.py:31-81 | on every input the result, or the failure, is the one of the history semantics |
| LzssContainer.EncodeExpands | bootstrap_scripts/decompress_lzss.py:53-80 | the reference encoder produces, for every text, legal tokens that expand to the text |
| LzssContainer.SerializedSize | bootstrap_scripts/decompress_lzss.py:44-80 | a legal encoding exceeds its text by at most one byte in eight |
| LzssContainer.RoundTrip | bootstrap_scripts/decompress_lzss.py:31-81 | decompressing a container inverts every legal encoding of every text, whatever surrounds the stream, and the extractor returns what follows |
| LzssContainer.EveryTextHasAContainer | bootstrap_scripts/decompress_lzss.py:31-81 | every text short enough for the size fields has a container that decompresses to it |
| LzssContainer.ScriptsPartitionTheFile | bootstrap_scripts/kernelcompressedextractmonitor.py:6-14 | the decoder depends on the header and the announced stream only, the extractor returns exactly the rest |
| LzssContainer.DecodesExactlyWhen | bootstrap_scripts/decompress_lzss.py:31-81 | bytes are returned if and only if magic and sizes are there, the stream is empty or complete, and its expansion fits the announced size |
| LzssFormat.FileDecodes | bootstrap_scripts/decompress_lzss.py:31-81 | the file in bytes: after "complzss", a checksum, two sizes and 364 bytes the stream starts at byte 384; the output has the announced size, the stream's meaning first and then bytes 0x20; the other script returns the bytes from 384 plus the length on |
| LzssFormat.CutFileFails | bootstrap_scripts/decompress_lzss.py:37-49 | a stream that is cut short is an IndexError, and nothing is left for the other script |
| LzssFormat.ShortFiles | bootstrap_scripts/decompress_lzss.py:32-39 | without the magic both scripts give up, with it a file that ends before the second size is a struct error in both |
| LzssFormat.MatchReadsTheRing | bootstrap_scripts/decompress_lzss.py:41-80 | byte k of a match is output byte u, the youngest whose slot (4078 + u) mod 4096 is the slot read, or 0x20 before the first byte |
| LzssFormat.MatchInBytes | bootstrap_scripts/decompress_lzss.py:66-74 | the low byte and the high nibble of the second are the position, its low nibble plus 3 the length |
| LzssFormat.GroupDecodes | bootstrap_scripts/decompress_lzss.py:45-73 | a flag byte decides its tokens from bit 0 upwards, 1 for a literal, whatever its other bits are |
| LzssFormat.ShortStreams | bootstrap_scripts/decompress_lzss.py:44-80 | what streams of one and two tokens mean, for all bytes; a first match copies blanks |
| LzssContainer.EmptyStreamInShortFile | bootstrap_scripts/decompress_lzss.py:35-48 | a file of 20 bytes that announces an empty stream decodes to spaces of the announced size |
| BlockTransfer.BlockCountIsCeiling | aleph_bdev_drv/src/aleph_block_dev.c:199-200 | the block count is the exact ceiling of size over 4096 and one more than the reported maximum |
| BlockTransfer.ChunkInRange | aleph_bdev_drv/src/aleph_block_dev.c:133-137 | for every 64-bit block number: the offset is the block's place and the chunk has 1 to 4096 bytes inside the file if and only if the block is below the count; then it is what is left, at most a block |
| BlockTransfer.OffsetsWrap | aleph_bdev_drv/src/aleph_block_dev.c:133-140 | block 2^52, out of range, gets offset 0 and a chunk inside the file |
| BlockTransfer.GuardNeverFires | aleph_bdev_drv/src/aleph_block_dev.c:135-140 | after clipping the guard is false for every offset |
| BlockTransfer.InRangeIsAdvertised | aleph_bdev_drv/src/aleph_block_dev.c:81-86 | a request is in range if and only if its last block is at most the advertised maximum |
| BlockTransfer.ReadStep | aleph_bdev_drv/src/aleph_block_dev.c:132-145 | i+1 blocks read flat are i blocks read flat and one chunk more, at its place |
| BlockTransfer.WriteStep | aleph_bdev_drv/src/aleph_block_dev.c:147-160 | the same for writing |
| BlockTransfer.WriteThenRead | aleph_bdev_drv/src/aleph_block_dev.c:131-160 | reading back written blocks returns the bytes written; all other file bytes and the size are unchanged |
| BlockTransfer.TransfersCompose | aleph_bdev_drv/src/aleph_block_dev.c:131-160 | moving a+b blocks is moving a and then b, in byte count, file and memory |
| BlockTransfer.TransferInBytes | aleph_bdev_drv/src/aleph_block_dev.c:131-160 | a request in bytes: block b lies at byte 4096 * b, the last block may be short, and nothing but its piece changes |
| BlockDevice.AlephBlockDevice.constructor | aleph_bdev_drv/src/aleph_block_dev.c:190-200 | size and block count match the host file |
| BlockDevice.AlephBlockDevice.ReportMaxValidBlock | aleph_bdev_drv/src/aleph_block_dev.c:81-86 | the blocks up to the reported one are exactly those that start inside the file |
| BlockDevice.AlephBlockDevice.Chunk | aleph_bdev_drv/src/aleph_block_dev.c:133-140 | the wrapping sums of one turn give the true offset and clipped length, and cancel() is not reached |
| BlockDevice.AlephBlockDevice.ReadBlocks | aleph_bdev_drv/src/aleph_block_dev.c:131-145 | the loop through the staging buffer is one flat copy from file to memory; the count is the bytes moved |
| BlockDevice.AlephBlockDevice.WriteBlocks | aleph_bdev_drv/src/aleph_block_dev.c:146-160 | the same from memory to file |
| BlockDevice.AlephBlockDevice.DoAsyncReadWrite | aleph_bdev_drv/src/aleph_block_dev.c:107-173 | a request in range moves the bytes from 4096 * block to the end of its last block or of the file, in its direction, changes nothing else and completes with their number; any other direction reaches cancel() and moves nothing |
| BlockConcurrency.StepKeepsInv | aleph_bdev_drv/src/aleph_block_dev.c:112-171 | each step of any request keeps: the data are the serial result of the finished requests plus the blocks the lock holder has moved |
| BlockConcurrency.RunKeepsInv | aleph_bdev_drv/src/aleph_block_dev.c:112-171 | so it holds after every schedule |
| BlockConcurrency.Linearizable | aleph_bdev_drv/src/aleph_block_dev.c:112-171 | for every schedule, a drain finds the staging buffer as the same request filled it for the same block, and with the lock free file and memories are those of a serial order |
| BlockConcurrency.SerialInBytes | aleph_bdev_drv/src/aleph_block_dev.c:131-160 | what serving one more request does to file and memories, in bytes, for reads and for writes |
| BlockConcurrency.AllRequestsServed | aleph_bdev_drv/src/aleph_block_dev.c:112-171 | when all requests have returned, the outcome is that of a serial order with each request exactly once |
| BlockConcurrency.SomeoneMoves | aleph_bdev_drv/src/aleph_block_dev.c:115-171 | no deadlock: unless all have returned, some request can take a step, and less is left to do after it |
| BlockConcurrency.AllCanReturn | aleph_bdev_drv/src/aleph_block_dev.c:112-171 | every schedule can be continued until all requests have returned |
| BlockConcurrency.OrderOnlyGrows | aleph_bdev_drv/src/aleph_block_dev.c:115-171 | the serial order of a run extends that of each earlier moment |
| BlockConcurrency.OrderRespectsRealTime | aleph_bdev_drv/src/aleph_block_dev.c:115-171 | a request that returned before another took the lock precedes it in the serial order |
| Decimal.PrintedTextIsExact | common_hooks/src/utils.c:44-66 | the text reads back as the number and has no leading zero unless it is "0" |
| Decimal.DigitByDigit | common_hooks/src/utils.c:50-62 | the text is that of n / 10 and the digit n mod 10, in base ten, with the digits 0 to 9 |
| Decimal.PrintingIsInjective | common_hooks/src/utils.c:44-66 | different numbers print differently |
| Decimal.DigitsOfValue | common_hooks/src/utils.c:44-66 | every digit text without leading zero is the printed text of its value |
| Decimal.TwentyDigits | common_hooks/src/utils.c:46-63 | at most 20 digits for every 64-bit number |
| Decimal.PutDigits | common_hooks/src/utils.c:54-58 | the first loop stores the digits, least significant first, inside the scratch array |
| Decimal.MyItoa | common_hooks/src/utils.c:44-66 | the destination holds the decimal text and a terminator, and nothing behind it changes |
| MessageBuffer.Message.StrnCat | common_hooks/src/utils.c:33-36 | appends at most `size` characters behind the terminator, given room the size argument does not check |
| MessageBuffer.Message.CatInt64 | common_hooks/src/utils.c:29-37 | appends name, decimal number and newline, each cut at the size, for every size and every name that the buffer has room for |
| MessageBuffer.Message.PrintTask | common_hooks/src/ipc-obj.c:30-42 | appends exactly the task's lines within the task's worst case |
| MessageBuffer.Message.PrintIpcSpace | common_hooks/src/ipc-obj.c:44-56 | appends exactly the space's lines, task included, within its worst case |
| MessageBuffer.Message.PrintIpcPort | common_hooks/src/ipc-obj.c:58-169 | appends exactly the port's lines, receiver included if active, within its worst case |
| MessageBuffer.Message.PrintPortBitsText | common_hooks/src/ipc-obj.c:171-208 | the switch appends the name that belongs to the right |
| MessageText.RightsAreToldApart | common_hooks/src/ipc-obj.c:173-207 | no two rights have the same name, and none is named like the values that are no right |
| MessageReport.BitsUnpack | common_hooks/include/ipc-obj.h:98-128 | from a word packed of its fields the printers get the remote, local and voucher rights and the flags in bits 28, 29 and 31 back, whatever the other bits are |
| MessageReport.IoBitsUnpack | common_hooks/src/ipc-obj.c:60-63 | the same for the four fields of io_bits |
| MessageReport.RightNames | common_hooks/src/ipc-obj.c:173-207 | the name of each right, and of all other values |
| MessageReport.TypeNames | common_hooks/src/ipc-obj.c:77-160 | the names of object types and kobject types |
| MessageReport.TaskReport | common_hooks/src/ipc-obj.c:32-41 | the lines of a task, in plain text |
| MessageReport.SpaceReport | common_hooks/src/ipc-obj.c:46-55 | the lines of a space, with its task if it has one |
| MessageReport.PortFieldReport | common_hooks/src/ipc-obj.c:67-163 | the fields of a port, in plain text, from the packed io_bits |
| MessageReport.PortReport | common_hooks/src/ipc-obj.c:65-168 | a port's report includes its receiver exactly if bit 31 of io_bits is set and there is one |
| MessageReport.HeadReport | common_hooks/src/ipc-obj.c:216-220 | the first lines of a message, in plain text |
| MessageReport.BitsReport | common_hooks/src/ipc-obj.c:222-251 | which field of msgh_bits is printed under which name |
| MessageReport.HeaderReport | common_hooks/src/ipc-obj.c:252-256 | the lines of the header, in plain text |
| MessageReport.PortsReport | common_hooks/src/ipc-obj.c:257-264 | the remote and the local port are shown exactly if their rights are not 0 |
| MessageReport.KmsgReport | common_hooks/src/ipc-obj.c:210-266 | the order of the parts |
| MessageBuffer.Message.PrintIpcKmsg | common_hooks/src/ipc-obj.c:210-266 | appends exactly the message's lines, with the ports that its bits announce, within its worst case |
| HookLog.BuildMessage | function-hooks/ipc_kmsg_send/src/main.c:54-64 | banner and all nested pieces fit the 16384 bytes with their terminator, so the logged text is complete; half would do |
| HookLog.KmsgSendHook | function-hooks/ipc_kmsg_send/src/main.c:45-68 | nothing is logged if the remote rights in bits 0 to 4 are 0, the port is inactive (bit 31) or there is no receiver; banner and whole report if the receiver has no task; the banner alone if it has one |
| HookLog.MqueueSendHook | function-hooks/ipc_mqueue_send/src/main.c:48-56 | one call appends its banner and the whole report |
| HookLog.WritingAtTheEndAppends | function-hooks/ipc_kmsg_send/src/main.c:63-64 | a write at the current size is an append |
| HookLog.EventTextIs | function-hooks/ipc_kmsg_send/src/main.c:47-66 | the same cases for the text that a call contributes to a run |
| HookLog.TextsInFull | function-hooks/ipc_kmsg_send/src/main.c:45-68 | the log of a run is made of one text for each call, each by these cases |
| HookLog.StepKeepsInv | function-hooks/ipc_kmsg_send/src/main.c:45-68 | each step of any call keeps: the log is the messages of the calls that have written, and a size that was read is still the size |
| HookLog.RunKeepsInv | function-hooks/ipc_mqueue_send/src/main.c:48-56 | so it holds after every schedule of any number of calls of both hooks |
| HookLog.LogIsWholeMessages | function-hooks/ipc_mqueue_send/src/main.c:48-56 | at every moment of every run the log is the old log and complete messages in lock order, each as its case says |
| HookLog.AllMessagesLogged | function-hooks/ipc_kmsg_send/src/main.c:45-68 | when all calls have returned, each message is in the log exactly once, as its case says |
| HookLog.SomeoneMoves | function-hooks/ipc_kmsg_send/src/main.c:45-68 | no deadlock: unless all have returned, some call can take a step, and less is left to do after it |
| HookLog.AllCanReturn | function-hooks/ipc_mqueue_send/src/main.c:48-56 | every schedule can be continued until all calls have returned |
| Tunnel.DisciplinedMeans | tcp-tunnel/src/main.c:222-397 | in a disciplined trace every close and every use hits an open socket, only the listening socket is open at each accept, and closing the standard input hits no socket |
| Tunnel.DisciplineIsLostForGood | tcp-tunnel/src/main.c:222-397 | no continuation of an undisciplined trace is disciplined |
| Tunnel.FailedAcceptMeans | tcp-tunnel/src/main.c:373-382 | behind an accept that failed comes the next accept if nothing was there yet, else the listening socket is closed |
| Tunnel.AcceptMeans | tcp-tunnel/src/main.c:370-385 | an accept fails or hands out the inward socket, and then a connection is tried |
| Tunnel.DataIsHandedOn | tcp-tunnel/src/main.c:228-256 | behind received data comes a send on the other socket |
| Tunnel.ConnectionEndsExactly | tcp-tunnel/src/main.c:228-270 | relaying stops exactly if a side has closed, an error is not "nothing yet", or a send fails; else the next event is the next relaying call |
| Tunnel.SidesTakeTurns | tcp-tunnel/src/main.c:227-271 | a side that has nothing yet is followed by the other, and so is one whose data were handed on |
| Tunnel.TunnelGoesOnExactly | tcp-tunnel/src/main.c:384-394 | behind a connection the tunnel accepts again exactly if that connection was relayed; one that could not be set up ends it |
| Tunnel.ListenerSetUpMeans | tcp-tunnel/src/main.c:323-366 | the calls that set up the listening socket, their order, and that a failing one closes it |
| Tunnel.ConnectionSetUpMeans | tcp-tunnel/src/main.c:281-313 | the same for a connection |
| Tunnel.ForkMeans | tcp-tunnel/src/main.c:357-366 | behind a fork the parent does nothing more, the child closes its standard input and accepts, and without a child the program accepts |
| Tunnel.Relay | tcp-tunnel/src/main.c:228-248 | one half of a turn, with the answers on which the connection goes on |
| Tunnel.SendReceive | tcp-tunnel/src/main.c:222-272 | on return exactly the outward descriptor has been closed, behind a relaying call that ended the connection |
| Tunnel.ConnectTo | tcp-tunnel/src/main.c:286-311 | a connection is set up, or its socket closed again |
| Tunnel.HandleIncomingConnection | tcp-tunnel/src/main.c:274-314 | on return, successful or not, the same descriptors are open as before; -1 exactly for a connection that could not be set up |
| Tunnel.StartListening | tcp-tunnel/src/main.c:323-355 | the listening socket is the only one open, or, after a failure, none is |
| Tunnel.Daemonize | tcp-tunnel/src/main.c:357-366 | only the child closes descriptor 0, which hurts exactly if that is an open socket of the tunnel |
| Tunnel.AcceptConnections | tcp-tunnel/src/main.c:368-396 | the loop keeps the discipline it starts with, returns -1 only behind an accept that failed for good, 0 only behind a connection that was given up, and is cut only after as many events as it was granted turns |
| Tunnel.RunTunnel | tcp-tunnel/src/main.c:316-397 | for all answers of the environment each event is the one due, and the trace is disciplined if and only if this is not a daemon whose listening socket is descriptor 0; a disciplined tunnel that returns leaves nothing open; -1 and 0 have the causes named |
| Tunnel.StartTunnel | tcp-tunnel/src/main.c:83-97 | which system's sockets listen and which connect; inward tunnels and foreground tunnels are always disciplined |
| AddressSpec.Tokenizer.Next | tcp-tunnel/src/main.c:170-214 | the calls of strtok deliver the non-empty colon-free runs one by one |
| AddressSpec.TokensAreTheRuns | tcp-tunnel/src/main.c:170-214 | the tokens of a text are its colon-free runs: without colons, not empty, together the text without its colons, as many as there are runs |
| AddressSpec.StrtoulReads | tcp-tunnel/src/main.c:185-203 | what strtoul with base 0 makes of blanks, sign, decimal, octal or hexadecimal digits and anything behind them, and when it is out of range |
| AddressSpec.ParseAddressSpec | tcp-tunnel/src/main.c:166-220 | accepted if and only if both ports are in range and there are at most three operands behind a direction; says what each output then holds, and what an early error leaves |
| AddressSpec.TokensOfOperands | tcp-tunnel/src/main.c:170-214 | three colon-free texts joined by colons are split into just these |
| AddressSpec.DecimalReadsBack | tcp-tunnel/src/main.c:183-194 | strtoul with base 0 inverts decimal printing on 64-bit numbers |
| AddressSpec.RoundTrip | tcp-tunnel/src/main.c:166-220 | a printed specification parses to the same direction, ports and terminated address |
| HexText.WordOfEightDigits | bootstrap_scripts/create_trustcache.py:39-41 | packing the number of eight digits gives the bytes of their pairs |
| HexText.DigitTable | bootstrap_scripts/create_trustcache.py:40 | the sixteen digits in both cases and their values; no other character is one |
| HexText.IntValueReads | bootstrap_scripts/create_trustcache.py:40 | int(s, 16) of blanks, sign, prefix, digits and blanks is the number of the digits with the sign |
| HexText.OnlyFormsAreRead | bootstrap_scripts/create_trustcache.py:40 | and nothing else is a number |
| HexText.IntValueOfDigits | bootstrap_scripts/create_trustcache.py:40 | int(s, 16), with its blanks, sign, prefix and underscores, reads plain digits as their number |
| HexText.IntValueFitsWord | bootstrap_scripts/create_trustcache.py:40-41 | whatever int() accepts in eight characters, the number is less than 2^32 |
| TrustCache.CreateTc | bootstrap_scripts/create_trustcache.py:7-47 | the result is header, count and records of the lines, or the first error |
| TrustCache.WordsOf | bootstrap_scripts/create_trustcache.py:38-41 | five words as int() reads the slices, or the first error: no number, or a negative one; digits alone give the bytes of their pairs |
| TrustCache.WordsOfDigits | bootstrap_scripts/create_trustcache.py:38-41 | the words of slices of digits are the bytes of the digit pairs |
| TrustCache.TableParses | bootstrap_scripts/create_trustcache.py:7-47 | parsing the table gives back the number of lines and their keys in order |
| TrustCache.TableInBytes | bootstrap_scripts/create_trustcache.py:7-47 | every byte of the table: 28 fixed ones, the count, and for each line twenty bytes and two zeros at its place |
| TrustCache.FirstBadLineDecides | bootstrap_scripts/create_trustcache.py:29-41 | the first line that is neither blank nor good decides the error |
| TrustCache.WordsDecide | bootstrap_scripts/create_trustcache.py:38-41 | in a line the first slice that is no number, or a negative one, decides it |
| TrustCache.WordsInBytes | bootstrap_scripts/create_trustcache.py:38-41 | otherwise the four bytes of each slice are its number, most significant first |
| TrustCache.TooManyLines | bootstrap_scripts/create_trustcache.py:27 | 2^32 lines do not fit the count |
| TrustCache.CountIsRightUnlessBlank | bootstrap_scripts/create_trustcache.py:27-31 | the count field equals the number of records if and only if no line is blank |
| TrustSearch.SortSorts | bootstrap_scripts/create_trustcache.py:53-54 | there is a way to order the lines that keeps each of them |
| TrustSearch.SortIsUnique | bootstrap_scripts/create_trustcache.py:53-54 | there is only one, so it is the result of sorted() |
| TrustSearch.TextOrderIsLexicographic | bootstrap_scripts/create_trustcache.py:54 | the order of the sort is the lexicographic one |
| TrustSearch.ByteOrderIsLexicographic | bootstrap_scripts/create_trustcache.py:53 | and so is the order of the search |
| TrustSearch.TruncationKeepsOrder | bootstrap_scripts/create_trustcache.py:35 | cutting lines to 40 digits keeps their order |
| TrustSearch.HexOrder | bootstrap_scripts/create_trustcache.py:53-54 | with letters of one case text order is byte order |
| TrustSearch.KeyOrderIsLoweredOrder | bootstrap_scripts/create_trustcache.py:35-41 | keys compare as their digits do after lower-casing |
| TrustSearch.KeysSortedExactlyWhen | bootstrap_scripts/create_trustcache.py:53-55 | however the lines were sorted, the written keys are in order if and only if no two listed lines compare differently after lower-casing |
| TrustSearch.AllFoundExactlyWhenSorted | bootstrap_scripts/create_trustcache.py:53 | a bisection finds each of a sequence of distinct keys if and only if they are in order |
| TrustSearch.SearchableExactlyWhen | bootstrap_scripts/create_trustcache.py:53-55 | with distinct keys, a bisection over the sorted table finds every listed hash if and only if no two listed lines compare differently after lower-casing |
| TrustSearch.UniformCaseIsSearchable | bootstrap_scripts/create_trustcache.py:53-55 | with letters of one case every listed hash is found, listed twice or not |
| TrustSearch.MixedCaseMissesAKey | bootstrap_scripts/create_trustcache.py:53-55 | two sorted lines of which the first is not found |
| TrustSearch.DuplicatesHideDisorder | bootstrap_scripts/create_trustcache.py:53-55 | three sorted lines, two with the same key, that case disturbs and that are all found |
| TrustSearch.BinarySearch | bootstrap_scripts/create_trustcache.py:53 | the loop decides what the recursive bisection decides, on any keys |
| TrustSearch.SearchInWrittenTable | bootstrap_scripts/create_trustcache.py:50-55 | a bisection over the table that is written finds nothing that was not listed, and, if case does not disturb the order, all that was |
| SysRegs.DecodeInvertsEncode | xnu-kvm-lkm/xnu-kvm.c:48-59 | every field is read where the architecture puts it, in a word that is the sum of its fields at their bits |
| SysRegs.SlotsAreABijection | xnu-kvm-lkm/xnu-kvm.c:61-114 | twelve registers and twelve slots correspond one to one |
| SysRegs.ServedExactly | xnu-kvm-lkm/xnu-kvm.c:61-114 | which accesses are served, by the numbers of their fields |
| SysRegs.ClearStep | xnu-kvm-lkm/xnu-kvm.c:123 | the single-step bit is cleared and every other bit kept |
| SysRegs.ReadAfterWrite | xnu-kvm-lkm/xnu-kvm.h:20-31 | after a write, the register written reads as the value, register 31 as 0 whatever was written there, and each other register as before |
| SysRegs.Vcpu.SetReg | xnu-kvm-lkm/xnu-kvm.h:26-31 | register 31 discards writes, no other register changes |
| SysRegs.Hook.HandleSysReg | xnu-kvm-lkm/xnu-kvm.c:45-129 | handled exactly for Op0 3, CRn 15 and the twelve pairs of Op1 and CRm; then, for both directions, the program counter is 4 further and only the single-step bit cleared; a write changes one slot and no register, a read one register and no slot; not handled, nothing changes |
| SysRegs.BankHoldsLastWritten | xnu-kvm-lkm/xnu-kvm.c:61-120 | after any sequence of traps and guest activity a slot holds the last value written to its register, or 0 |
| SysRegs.ReadReturnsLastWritten | xnu-kvm-lkm/xnu-kvm.c:116-125 | a served read delivers the last value written, changes no other register, advances the program counter by 4 and clears the single-step bit and no other |
| SysRegs.Op2IsIgnored | xnu-kvm-lkm/xnu-kvm.c:57-114 | registers that differ in Op2 only are served alike |
| ListWalk.ElementsAreDistinct | gdb/xnu/xnu_types.py:549-576 | no element occurs twice in a ring of links |
| ListWalk.WalkFollowsChain | gdb/xnu/xnu_types.py:549-576 | calling an iterator yields given elements and stops if and only if the links run through exactly these to the head |
| ListWalk.RingInNumbers | gdb/xnu/xnu_types.py:536-576 | what a ring is for each of the three lists, with the addresses of heads and the offsets of links |
| ListWalk.ThreadNeeds | gdb/xnu/xnu_types.py:9-39 | which reads a thread needs besides its fields, by its state |
| ListWalk.StackNeeds | gdb/xnu/xnu_types.py:57-101 | which frames of a kernel stack are read |
| ListWalk.SmallKernelIsListed | gdb/xnu/xnu_types.py:522-576 | the lists of a small memory, written out, are listed |
| ListWalk.TaskNeedsItsFields | gdb/xnu/xnu_types.py:338-353 | without any one of its fields the task of that memory is an error |
| ListWalk.ThreadNeedsItsFields | gdb/xnu/xnu_types.py:9-25 | the same for its thread |
| ListWalk.LongWalkLoops | gdb/xnu/xnu_types.py:549-576 | an iteration longer than the memory has words has links that loop back to an element without passing the head |
| ListWalk.ListsExactlyTheRing | gdb/xnu/xnu_types.py:522-576 | an iteration lists elements if and only if the links form a ring through them, in that order, each once |
| ListWalk.NeverEndsExactly | gdb/xnu/xnu_types.py:549-576 | an iteration never ends, whatever the number of calls, if and only if the links from the head loop back to an element without passing the head |
| ListWalk.SelfLinkNeverEnds | gdb/xnu/xnu_types.py:571-576 | a memory with a task that links to itself, on which the iteration never ends |
| ListWalk.ThreadsIterator.Create | gdb/xnu/xnu_types.py:523-534 | refuses exactly a missing or null task when not global |
| ListWalk.ThreadsIterator.Iter | gdb/xnu/xnu_types.py:536-547 | starts, or starts again, at the first element; fails exactly when head or task is unreadable |
| ListWalk.ThreadsIterator.Next | gdb/xnu/xnu_types.py:549-559 | one call yields, stops or fails as the links say, and leaves the pointer there |
| ListWalk.TasksIterator.Create | gdb/xnu/xnu_types.py:563-566 | starts at the first task; fails exactly when the head is unreadable |
| ListWalk.TasksIterator.Next | gdb/xnu/xnu_types.py:571-576 | as for threads |
| ListWalk.ListTasks | gdb/xnu/xnu_types.py:601-602 | the whole iteration through the object is the one the ring laws speak of |
| ListWalk.ListThreads | gdb/xnu/xnu_types.py:605-606 | the same for threads, of one task or all |
| ListWalk.IsTaskExist | gdb/xnu/xnu_types.py:601-602 | answers exactly when the links form a ring, and then tells membership; does not return exactly when they loop back without passing the head |
| ListWalk.IsThreadExist | gdb/xnu/xnu_types.py:605-606 | the same for threads |
| ListWalk.IPCEntryIterator.Create | gdb/xnu/xnu_types.py:580-586 | starts at index 0 of the space's table; fails exactly on an unreadable or null space |
| ListWalk.IPCEntryIterator.Next | gdb/xnu/xnu_types.py:591-597 | yields the next live entry, having skipped only dead ones; stops only at the end; says which entry an error is about and where iteration would go on |
| ListWalk.ListEntries | gdb/xnu/xnu_types.py:579-597 | the iteration lists the live entries of the table, and fails if and only if some entry is null or unreadable |
| ListWalk.LiveMeans | gdb/xnu/xnu_types.py:595 | an entry is live exactly if bits 16 to 20 of ie_bits are not all 0, whatever the others are |
| ListWalk.EntryNeeds | gdb/xnu/xnu_types.py:211-225 | which reads an entry needs |
| ListWalk.LiveEntriesAreTheLiveOnes | gdb/xnu/xnu_types.py:591-597 | the list holds exactly the entries with type bits, in ascending order of their index |

## Left out

- BlockDevice.AlephBlockDevice.DoAsyncReadWrite: requests outside the advertised range, an empty host file, and memory descriptors that move fewer bytes than asked are not modelled.
- BlockDevice.HostFile.Write: inside the file only; the driver does not write past its end in range.
- BlockConcurrency.Linearizable: each request has memory of its own; requests that share memory are not modelled, and the mutex is one step each for lock and unlock.
- MessageBuffer.Message.StrnCat: follows ISO C11; a kernel's own strncat is taken to do the same.
- HookLog.KmsgSendHook: the mutex exists already; its unprotected first creation is not modelled, nor is a failing allocation of the buffer. The mutex is in the state machine, not in this method.
- HookLog.BuildMessage: a process name without a terminator inside its 256 bytes is not modelled.
- Tunnel.RunTunnel: `turns` cuts the endless loops, for runs of every length; the bytes relayed, short sends, what the parent of a daemon leaves to the system when it exits, and signals are not modelled.
- AddressSpec.Tokenizer.Next: strtok overwrites separators in the text; the model keeps a position instead.
- AddressSpec.ParseAddressSpec: the error some C libraries report for text without digits is not modelled; the standard does not ask for it.
- TrustCache.CreateTc: int() is the one of the Python library reference; that Python 2 also accepts blanks behind a sign is not modelled. Splitting the file into stripped lines happens before.
- TrustSearch.BinarySearch: the search is the kernel's, which is not part of this model; this is a reference.
- SysRegs.Hook.HandleSysReg: the original handler and what it does are outside; so are the hypercall hook, write protection and loading.
- ListWalk.ThreadsIterator.Next: which reads must succeed for a thread to be built is modelled, what its fields then hold is not; nor is the field `result`, which nothing reads later.
- The printed text of the debugger commands, the symbol tables, the Ghidra script and the ASN.1 scripts: formatting and calls into libraries.
- Metaclass registration, vtable patching, names and the frame buffer client of the driver: constant replies and foreign kernel calls.
- Host file access, the sockets' data, allocation and locks of the kernel: assumed to do what their interface says.
