# A verified model of the UNIX Network Programming sources

The programs and library routines of *UNIX Network Programming*, volume 1, rest on a few pieces of logic
that are easy to get wrong: parsers for addresses, rings shared by threads and signal handlers, buffers
between nonblocking descriptors, counters beside tables and descriptor sets, checksums, retransmission.
This project models those pieces in Dafny and proves what they are there for. `dafny verify dfyconfig.toml`
checks all of it.

The files follow the program's components.

| files | what they model |
|---|---|
| `DottedQuad` | the dotted-quad readers inet_pton4 and inet_aton, and the exact languages they accept |
| `Inet6Grammar`, `Inet6Reader` | inet_pton6: its exact language, and the loop with the overlapping shift |
| `Inet6Language` | the accepted texts: each has one reading, and which of them are beyond the standard |
| `Inet6Printer`, `Inet6Forms`, `Inet6Writer` | inet_ntop6: the canonical text, the round trip, what the text looks like in terms of the bytes, and the two loops |
| `OnesComplement`, `Checksum`, `Packets`, `PacketLaws` | the ones' complement sum, in_cksum in both copies, and the three programs that use it |
| `Ring`, `ThreadPool`, `BoundedBuffer`, `SigioEcho` | rings shared by an acceptor and its threads, by producers and consumers, and by a main loop and its SIGIO handler |
| `Copier` | the nonblocking str_cli with its two buffers |
| `Prefork` | the parent that passes descriptors to preforked children |
| `SelectServer` | the select echo server and its client table |
| `WebFetch` | the scheduler of nonblocking fetches |
| `Readline`, `ChunkedWrite` | the buffered readline against the one that reads a byte at a time; dowrite |
| `Rtt`, `SendRecv` | the RTT estimators, and a request with its retransmissions |
| `AddrList` | the service half of getaddrinfo, which expands a linked list in place |
| `Basics` | a few shared types and facts about sequences |

Two forms recur. A routine that works by changing variables or memory is a method or a class, proved equal
to a function on values (what the loop still has ahead, what an entry becomes, what a round does); the
theorems are then about that function, over all its inputs. Programs that run against other threads,
processes, signal handlers or the network are state machines: a `Step` or `Event` for each point at which
something else can come in between, an `Enabled` condition, and theorems about every run, of any length, with
any number of threads, children, files or clients. System calls appear as what they return: counts,
interrupts, ends of file, ready sets, in any combination the call allows.

Places where the code and what is written about it differ are kept as the code has them:

- The comment before inet_pton6 says that `::` in a full address is ignored. The shift reads and clears the
  same cells instead, so everything after the `::` becomes zero; `Inet6Grammar.GapInFullAddress` gives the exact
  condition under which the comment holds, and `GapInFullAddressExample` an address for which it does not.
- inet_pton6 accepts groups with more than four digits if the value fits, and a single colon at the end; both
  are part of the language that `Inet6Grammar.Exact` describes. `Inet6Language.BeyondStandard` says exactly which
  accepted texts are not standard, and `LongGroup` and `TrailingColon` give such texts and their bytes.
- inet_aton accepts empty components and fewer than four of them, and appends zeros for those that are missing;
  `Inet6Language.AtonBeyondQuad` says exactly which of its texts inet_pton4 rejects.
- in_cksum is right for every buffer of a length exactly if that length is at most 131074
  (`Checksum.ExactRange`).
- dowrite cuts a buffer as intended exactly if its size fits an int (`ChunkedWrite.CutsWellExactly`).
- readline returns `maxlen` when the buffer fills, although it stored one byte less; both versions do.
  `Readline.ReturnExactly` says, for every stream, exactly when the return value is the number of bytes stored,
  when it is `maxlen` and when it is -1.
- The web client enters select with nothing to wait for exactly if its limit of connections is below one
  (`WebFetch.SelectHasWork`); then it starts nothing and never ends, in every run
  (`WebFetch.ZeroLimitWaitsForEver`).

## Model

| member | source | states |
|---|---|---|
| DottedQuad.QuadExact | src_code/unpv13e/libfree/inet_pton.c:86-125 | inet_pton4 accepts a text with given bytes if and only if the text is four octets (decimal, at most 255, leading zeros allowed) joined by dots with those values |
| DottedQuad.InetPton4 | src_code/unpv13e/libfree/inet_pton.c:95-124 | the loop returns 1 exactly on those texts and stores their four bytes; it leaves the destination alone when it returns 0 |
| DottedQuad.AtonExact | src_code/unpv13e/libfree/inet_aton.c:28-67 | inet_aton accepts exactly one to four components whose accumulated values are at most 255, and fills up with zeros |
| DottedQuad.ReducedIsDecimal | src_code/unpv13e/libfree/inet_aton.c:42-56 | below the accumulator's width a component means its decimal value |
| DottedQuad.AtonExtendsQuad | src_code/unpv13e/libfree/inet_aton.c:22-75 | whatever inet_pton4 accepts, inet_aton accepts with the same address |
| DottedQuad.InetAton | src_code/unpv13e/libfree/inet_aton.c:22-75 | the do-while loop and the final shift return 1 on exactly the accepted texts and yield the address of their bytes |
| DottedQuad.FourBytes | src_code/unpv13e/libfree/inet_aton.c:55-67 | the address of four bytes has the first of them highest |
| Inet6Language.JoinUnique | src_code/unpv13e/libfree/inet_aton.c:28-62 | a dotted text is made of its components in one way only |
| Inet6Language.AtonBeyondQuad | src_code/unpv13e/libfree/inet_aton.c:28-67 | of the texts inet_aton accepts, inet_pton4 accepts exactly those of four octets |
| Inet6Language.ShortForms | src_code/unpv13e/libfree/inet_aton.c:64-67 | one to three octets are filled up with zeros by inet_aton and rejected by inet_pton4 |
| Inet6Grammar.Accepts | src_code/unpv13e/libfree/inet_pton.c:140-224 | every text of the accepted grammar is read with the meaning the code gives it |
| Inet6Grammar.Exact | src_code/unpv13e/libfree/inet_pton.c:140-224 | inet_pton6 yields bytes b for a text if and only if the text is written in that grammar and means b: no more texts and no fewer |
| Inet6Grammar.StandardAccepted | src_code/unpv13e/libfree/inet_pton.c:127-224 | every text of section 2.2 of RFC 4291, with `::` for at least one group and with or without a dotted-quad tail, is accepted with exactly the sixteen bytes it denotes |
| Inet6Grammar.GapInFullAddress | src_code/unpv13e/libfree/inet_pton.c:205-218 | with eight groups written out beside `::`, everything after the `::` becomes zero; the `::` is without effect if and only if those bytes were zero |
| Inet6Grammar.GapInFullAddressExample | src_code/unpv13e/libfree/inet_pton.c:205-218 | 1:1:1:1:1:1:1::8 is read with a zero last group |
| Inet6Grammar.HexTables | src_code/unpv13e/libfree/inet_pton.c:145-169 | the hexadecimal characters are exactly those of the two tables, in both cases of the letters, and the value of each is its place |
| Inet6Language.CaseDoesNotMatter | src_code/unpv13e/libfree/inet_pton.c:165-169 | for every text, inet_pton6 gives the same for it and for it with its letters a to f in upper case, rejections and dotted tails included |
| Inet6Language.Unambiguous | src_code/unpv13e/libfree/inet_pton.c:140-224 | an address text is made of its groups, gap and last part in one way only |
| Inet6Language.BeyondStandard | src_code/unpv13e/libfree/inet_pton.c:163-198 | an accepted text is not standard if and only if it has a group of more than four digits, a colon at the end that is not of a `::`, or a `::` beside eight groups |
| Inet6Language.TrailingColon | src_code/unpv13e/libfree/inet_pton.c:175-190 | eight groups with a colon after the last are read as those groups, and are not standard |
| Inet6Language.LongGroup | src_code/unpv13e/libfree/inet_pton.c:167-174 | a group of more than four digits whose value fits is read as that value, and is not standard |
| Inet6Reader.ShiftTail | src_code/unpv13e/libfree/inet_pton.c:210-216 | the overlapping copy-and-clear loop moves the bytes after the gap to the end of the array and leaves zeros between |
| Inet6Reader.AtColon | src_code/unpv13e/libfree/inet_pton.c:175-190 | a colon opens the gap or ends a group, and fails only when no text that goes on from here is accepted |
| Inet6Reader.ReadTokens | src_code/unpv13e/libfree/inet_pton.c:163-204 | the tokenizer loop stores exactly the bytes and the gap that the text stands for, or fails |
| Inet6Reader.Deliver | src_code/unpv13e/libfree/inet_pton.c:205-223 | the shift, the length test and the copy; the destination is untouched on failure |
| Inet6Reader.InetPton6 | src_code/unpv13e/libfree/inet_pton.c:140-224 | returns 1 exactly on accepted texts, stores their bytes, and leaves the destination unchanged whenever it returns 0 |
| Inet6Printer.HexTextBack | src_code/unpv13e/libfree/inet_ntop.c:183-183 | a printed group is read back as its value |
| Inet6Printer.HexTextShort | src_code/unpv13e/libfree/inet_ntop.c:183-183 | a word prints in at most four digits |
| Inet6Printer.HexTextCanonical | src_code/unpv13e/libfree/inet_ntop.c:183-183 | groups print without leading zeros and without upper-case digits |
| Inet6Printer.QuadTextBack | src_code/unpv13e/libfree/inet_ntop.c:87-103 | inet_pton4 reads back what inet_ntop4 prints, in at most fifteen characters |
| Inet6Printer.ChosenUnique | src_code/unpv13e/libfree/inet_ntop.c:137-158 | the run to shorten, the first of the longest of at least two zero words, is determined by the address |
| Inet6Printer.CanonicalDenotes | src_code/unpv13e/libfree/inet_ntop.c:163-189 | the canonical text is in the standard grammar and denotes the address it was made from |
| Inet6Printer.RoundTrip | src_code/unpv13e/libfree/inet_ntop.c:111-200 | for every sixteen bytes, inet_pton6 reads back from the text of inet_ntop6 the same sixteen bytes |
| Inet6Printer.PrintingInjective | src_code/unpv13e/libfree/inet_ntop.c:111-200 | two addresses print alike if and only if they are equal |
| Inet6Forms.DottedExactly | src_code/unpv13e/libfree/inet_ntop.c:175-181 | said of the bytes: the text has a dotted quad if and only if the first ten are zero and the next two are ff ff, or are zero with one of the two after them not zero; and then it ends in the text of the last four |
| Inet6Forms.ShortenedExactly | src_code/unpv13e/libfree/inet_ntop.c:157-170 | said of the bytes: the text has a :: if and only if two words side by side are zero |
| Inet6Forms.ShortensTheFirstLongest | src_code/unpv13e/libfree/inet_ntop.c:139-174 | the :: stands right behind the words before the first of the longest runs of zero words, and there is only one |
| Inet6Writer.LoadWords | src_code/unpv13e/libfree/inet_ntop.c:134-136 | the bytewise copy builds the eight words |
| Inet6Writer.FindBest | src_code/unpv13e/libfree/inet_ntop.c:137-158 | the search finds the first longest run of at least two zero words, or none |
| Inet6Writer.RestIsText | src_code/unpv13e/libfree/inet_ntop.c:163-189 | what the formatting loop writes from the start on is the canonical text |
| Inet6Writer.Format | src_code/unpv13e/libfree/inet_ntop.c:163-189 | the loop stays inside its 46 characters and leaves the canonical text there |
| Inet6Writer.InetNtop4 | src_code/unpv13e/libfree/inet_ntop.c:87-103 | the quad and its terminator are stored if the text is no longer than the size, and nothing otherwise |
| Inet6Writer.InetNtop6 | src_code/unpv13e/libfree/inet_ntop.c:111-200 | the canonical text and its terminator are stored if both fit, and nothing otherwise |
| OnesComplement.OnesSumIsNorm | src_code/unpv13e/libfree/in_cksum.c:16-31 | adding with carries brought round at once (section 1 of RFC 1071) equals reducing the whole sum at the end |
| OnesComplement.OnesSumOrder | src_code/unpv13e/libfree/in_cksum.c:16-31 | the sum does not depend on the order of the words (section 2 of RFC 1071) |
| OnesComplement.OnesSumSwap | src_code/unpv13e/libfree/in_cksum.c:16-31 | summing byte-swapped words gives the swapped sum (section 2 of RFC 1071) |
| Checksum.AddWords | src_code/unpv13e/libfree/in_cksum.c:16-25 | the loop leaves the sum of the words, and of an odd last byte, modulo 2^32 in the accumulator |
| Checksum.TwoFolds | src_code/unpv13e/libfree/in_cksum.c:28-30 | two folds bring every carry of any 32-bit sum round: the result is the sum in ones' complement arithmetic |
| Checksum.FoldCarries | src_code/unpv13e/libfree/in_cksum.c:28-31 | for every 32-bit sum the answer is the complement of the sum in ones' complement arithmetic, no carry left out |
| Checksum.InCksum | src_code/unpv13e/libfree/in_cksum.c:3-32 | for a buffer of any length the routine returns the complement of what its 32-bit accumulator holds of the words, reduced in ones' complement arithmetic |
| Checksum.CodeIsCksum | src_code/unpv13e/libfree/in_cksum.c:3-32 | up to 131074 bytes the accumulator does not wrap, two folds suffice, and the result is the checksum of RFC 1071 |
| Checksum.WrapsBeyond | src_code/unpv13e/libfree/in_cksum.c:16-31 | a buffer of 0xff bytes that is longer gets a wrong checksum |
| Checksum.ExactRange | src_code/unpv13e/libfree/in_cksum.c:3-32 | for each length an int can hold: right on every buffer of that length if and only if it is at most 131074 |
| Checksum.OrderIndependent | src_code/unpv13e/libfree/in_cksum.c:3-32 | hosts of either byte order store the same two bytes for the same buffer |
| Checksum.VerifiesExactly | src_code/unpv13e/libfree/in_cksum.c:3-32 | the field values for which the whole buffer sums to 0 are exactly the checksum over a zeroed field and, if that is 0, also 0xffff |
| Checksum.StoredVerifies | src_code/unpv13e/udpcksum/udpwrite.c:49-56 | storing the checksum, or 0xffff in place of 0, makes the whole buffer verify |
| Checksum.OddIsPadded | src_code/unpv13e/libfree/in_cksum.c:21-25 | an odd buffer has the checksum of the buffer with a zero byte behind it |
| Checksum.StoredBack | src_code/unpv13e/libfree/in_cksum.c:16-19 | a big-endian host keeps words in network order, a little-endian one the other way round, and each reads back what it stored |
| Checksum.PartialSumFits | src_code/unpv13e/ping/bsdping.c:635-666 | no partial sum of a buffer of up to 65476 bytes overflows the int accumulator |
| Checksum.InCksumSigned | src_code/unpv13e/ping/bsdping.c:635-666 | the signed copy computes the checksum for every buffer that pinger can pass |
| Packets.SetChecksum | src_code/unpv13e/ping/send_v4.c:17-19 | the field gets what in_cksum makes of the buffer with a zeroed field; up to 131074 bytes the buffer then verifies; every other byte is as it was |
| Packets.SendV4 | src_code/unpv13e/ping/send_v4.c:3-22 | the message sent is the echo request with its identifier, sequence number and time, and it verifies |
| Packets.FillPseudo | src_code/unpv13e/udpcksum/udpwrite.c:35-48 | the pseudo-header and the UDP header are laid out over the first 28 bytes, and the data is kept |
| Packets.FillIp | src_code/unpv13e/udpcksum/udpwrite.c:58-70 | the IP fields take the first nine bytes and nothing else |
| Packets.UdpWrite | src_code/unpv13e/udpcksum/udpwrite.c:28-73 | for data of any length, the packet carries addresses, ports, data and lengths modulo 65536 behind the IP fields; rebuilt with its pseudo-header it verifies as far as in_cksum reaches; the checksum field is 0 if and only if none was asked for |
| Packets.UdpCheck | src_code/unpv13e/udpcksum/udpread.c:52-84 | exactly the packets whose IP header is whole and sums to 0 and whose protocol is UDP are accepted, and every other packet gets the exit of the first test it fails; the checksum field is overwritten as the code does |
| Packets.SentHeaderAccepted | src_code/unpv13e/udpcksum/udpread.c:64-81 | a header filled by the rule is accepted at the other end |
| Packets.IpFields | src_code/unpv13e/udpcksum/udpwrite.c:60-70 | the IP fields one by one: version 4 with five words, no service, identification or fragment, 64 hops, and the total length in network or in host order |
| PacketLaws.EchoInPlainTerms | src_code/unpv13e/ping/send_v4.c:10-19 | the message of send_v4 byte by byte: type 8, code 0, the stored checksum, identifier and sequence number, and the time over the pattern 0xa5 |
| PacketLaws.PseudoIsStandard | src_code/unpv13e/udpcksum/udpwrite.c:35-51 | the layout of the example has the checksum of the pseudo-header and datagram in the order of RFC 768 |
| PacketLaws.WrittenIsAccepted | src_code/unpv13e/udpcksum/udpwrite.c:58-73 | whatever udp_write writes is accepted by udp_check once the kernel has set the total length and the header checksum |
| Ring.PutQueued | src_code/unpv13e/server/serv08.c:40-42 | storing at the put index appends to what is queued |
| Ring.TakeQueued | src_code/unpv13e/server/pthread08.c:24-26 | taking at the get index yields the oldest entry and leaves the others in order |
| ThreadPool.Shared.PutConnection | src_code/unpv13e/server/serv08.c:40-44 | the acceptor's section stores at iput, wraps it, and reports a full ring |
| ThreadPool.Shared.TakeConnection | src_code/unpv13e/server/pthread08.c:24-26 | the worker's section takes at iget and wraps it |
| ThreadPool.StepInv | src_code/unpv13e/server/pthread08.c:20-32 | every step of the acceptor and of every worker, spurious wakeups included, keeps the invariant |
| ThreadPool.CheckInv | src_code/unpv13e/server/serv08.c:43-44 | the quit for a full ring is taken exactly when all 32 slots are in use |
| ThreadPool.ExactlyOnceInOrder | src_code/unpv13e/server/serv08.c:35-47 | for any number of workers and any interleaving, descriptors are taken in accept order, each once, by workers that exist, and at most 31 wait unless the server has quit |
| ThreadPool.WakeupsNotLost | src_code/unpv13e/server/pthread08.c:20-32 | whenever a worker sleeps, the queued descriptors do not outnumber the workers heading for the mutex and the signal still to come |
| ThreadPool.NeverStalls | src_code/unpv13e/server/pthread08.c:20-32 | with a descriptor queued and the mutex free, a worker is waiting for the mutex, or all of them are serving clients |
| ThreadPool.CountsAreRight | src_code/unpv13e/server/pthread08.c:28-28 | each thread_count is the number of descriptors that worker took |
| ThreadPool.ServesWhatItTook | src_code/unpv13e/server/pthread08.c:24-31 | in every run, the descriptor a worker serves is the last it took from the ring |
| ThreadPool.WorkerTurn | src_code/unpv13e/server/pthread08.c:21-30 | with the mutex free and a descriptor queued, the four steps of a worker lead to its serving the oldest one |
| ThreadPool.AcceptorTurn | src_code/unpv13e/server/serv08.c:36-47 | with the mutex free and room in the ring, the six steps of the acceptor lead to the connection queued last, a sleeper awake if there was one, and the mutex free |
| BoundedBuffer.Buffer.Store | src_code/unpv13e/threads/example03.c:72-75 | produce's update of the buffer, index and count |
| BoundedBuffer.Buffer.Fetch | src_code/unpv13e/threads/example03.c:93-97 | consume's update, with the oldest value |
| BoundedBuffer.StepInv | src_code/unpv13e/threads/example03.c:62-104 | every step of every caller keeps the invariant |
| BoundedBuffer.ConsumedIsPrefix | src_code/unpv13e/threads/example03.c:62-104 | the values consumed are a prefix of the values produced, and b_nitems is always the ring distance |
| BoundedBuffer.MovesTheCallersValue | src_code/unpv13e/threads/example03.c:62-104 | in every run, what a producer stores is the value of its own call, however often it slept, and what a consumer fetches is the oldest value not yet consumed |
| BoundedBuffer.CallerTurn | src_code/unpv13e/threads/example03.c:62-104 | with the mutex free and a slot or a value there, the six steps of a call put its value last or take the oldest, and it returns |
| BoundedBuffer.NoDeadlock | src_code/unpv13e/threads/example03.c:62-104 | if all callers sleep they are all producers at a full buffer or all consumers at an empty one |
| BoundedBuffer.SleepersAreServed | src_code/unpv13e/threads/example03.c:62-104 | a caller never sleeps on something available without another on its way to take it or to wake it |
| SigioEcho.Server.SigIo | src_code/unpv13e/sigio/dgecho01.c:85-108 | a signal queues all waiting datagrams at the end and counts itself, or quits exactly when they would leave no free slot |
| SigioEcho.Server.Send | src_code/unpv13e/sigio/dgecho01.c:58-65 | what is sent is the oldest datagram, with signals before and after |
| SigioEcho.Server.Advance | src_code/unpv13e/sigio/dgecho01.c:67-72 | iget moves on and nqueue goes down, with signals in between, and the queue keeps its order |
| SigioEcho.Server.EchoNext | src_code/unpv13e/sigio/dgecho01.c:57-73 | one turn of the loop with a signal at each unblocked point takes exactly the oldest datagram |
| SigioEcho.StepInv | src_code/unpv13e/sigio/dgecho01.c:57-108 | every step of the loop and of the handler keeps the invariant |
| SigioEcho.SentIsPrefix | src_code/unpv13e/sigio/dgecho01.c:57-108 | the datagrams sent are a prefix of the datagrams received |
| SigioEcho.EchoesWhatArrived | src_code/unpv13e/sigio/dgecho01.c:64-106 | in every run, datagram k sent back is datagram k that came in: its sender, and its data up to 4096 bytes |
| SigioEcho.AllIsEchoed | src_code/unpv13e/sigio/dgecho01.c:57-106 | in every run, as many datagrams have been sent back as came in when the main loop is suspended and no handler runs or has quit |
| SigioEcho.QueueIsDrained | src_code/unpv13e/sigio/dgecho01.c:57-73 | from any state the invariant allows at the loop test, as many turns as there are datagrams in the queue, with no signal in between, send back all that was received |
| SigioEcho.SlotInHandIsSafe | src_code/unpv13e/sigio/dgecho01.c:64-105 | no turn of the handler, the last one with its write to dg_salen included, writes a queued slot; so the slot the main loop has in hand stays as it is, even between the advance of iget and the decrement of nqueue |
| SigioEcho.NeverSleepsOnWork | src_code/unpv13e/sigio/dgecho01.c:57-59 | when the main loop is suspended and no handler runs, every datagram received has been sent |
| SigioEcho.SendsTheSnapshot | src_code/unpv13e/sigio/dgecho01.c:64-65 | what goes out is what the slot held when the send began, and it is the next datagram received |
| SigioEcho.HandlerBounds | src_code/unpv13e/sigio/dgecho01.c:85-108 | a handler that returns leaves nqueue below QSIZE and indexes cntread in range |
| Copier.StrCli.StdinPart | src_code/unpv13e/nonblock/strclinonb.c:42-62 | the read from standard input into the buffer, with its three outcomes |
| Copier.StrCli.SocketReadPart | src_code/unpv13e/nonblock/strclinonb.c:64-86 | the read from the socket |
| Copier.StrCli.StdoutPart | src_code/unpv13e/nonblock/strclinonb.c:89-103 | the write to standard output, and the reset of an empty buffer |
| Copier.StrCli.SocketWritePart | src_code/unpv13e/nonblock/strclinonb.c:105-122 | the write to the socket, the reset, and the shutdown after the last byte |
| Copier.StrCli.Turn | src_code/unpv13e/nonblock/strclinonb.c:28-122 | one turn of the loop is one round of the machine, whose effect Copier.RoundInPlainTerms gives |
| Copier.StrCli.Run | src_code/unpv13e/nonblock/strclinonb.c:5-124 | the loop is any number of rounds, until it ends; Copier.InputIsDelivered and RepliesAreDelivered say what they bring about |
| Copier.RoundInv | src_code/unpv13e/nonblock/strclinonb.c:28-122 | a round under any readiness and any partial results keeps the invariant |
| Copier.Conserved | src_code/unpv13e/nonblock/strclinonb.c:27-123 | bytes written to each side, followed by what its buffer holds, are the bytes read from the other |
| Copier.ShutdownOnceAtTheEnd | src_code/unpv13e/nonblock/strclinonb.c:51-119 | SHUT_WR comes at most once, after the end of standard input with all of it written, and no socket write follows |
| Copier.ReadsHaveRoom | src_code/unpv13e/nonblock/strclinonb.c:30-65 | every read has room, so that 0 means the end of the file |
| Copier.EndsAreReal | src_code/unpv13e/nonblock/strclinonb.c:42-77 | in every run, each of the two ends of file that the function acts on comes from a read that was at the end, never from a full buffer |
| Copier.NeverWaitsForNothing | src_code/unpv13e/nonblock/strclinonb.c:30-39 | select always has something to wait for |
| Copier.Endings | src_code/unpv13e/nonblock/strclinonb.c:69-76 | the function returns exactly at a socket end of file after that of standard input, and complains exactly at one before it |
| Copier.RoundInPlainTerms | src_code/unpv13e/nonblock/strclinonb.c:30-122 | for every readiness and every result of the four calls: which bytes a round moves each way, whether standard input ends, and how the function ends; a call that blocks moves nothing |
| Copier.InputIsDelivered | src_code/unpv13e/nonblock/strclinonb.c:105-119 | after the end of standard input, as many rounds in which the socket takes a byte at least as there are bytes left send all of standard input and then the shutdown |
| Copier.RepliesAreDelivered | src_code/unpv13e/nonblock/strclinonb.c:89-103 | as many rounds in which standard output takes a byte at least, and nothing comes in, as there are bytes left write all that the socket has sent |
| Readline.LineConserves | src_code/unpv13e/lib/readline.c:28-49 | the bytes a call stores and the events it leaves make up the stream, whether it fails or not |
| Readline.ReturnExactly | src_code/unpv13e/lib/readline.c:35-48 | for every stream and every maxlen from 1: the return value is the number of bytes stored if and only if they neither fill the buffer nor meet an error; it is maxlen if and only if maxlen - 1 bytes fill the buffer, and -1 if and only if an error comes first |
| Readline.InterruptsDontMatter | src_code/unpv13e/lib/readline.c:13-17 | interrupted reads, wherever they come, leave no trace in what a call returns, stores and leaves |
| Readline.TextAndEnd | src_code/unpv13e/lib/readline.c:35-48 | every stream is, but for interrupts, a text without newlines followed by nothing, a newline, an end of file or an error |
| Readline.FullInPlainTerms | src_code/unpv13e/lib/readline.c:35-48 | of every stream, a text that fills the buffer is cut at maxlen - 1 bytes, and maxlen is returned |
| Readline.LineInPlainTerms | src_code/unpv13e/lib/readline.c:35-48 | of every stream, a shorter text ends with its newline, at the end of the file or of the stream, or with -1 at an error |
| Readline.NullAfter | src_code/unpv13e/lib/readline.c:37-47 | a call changes the bytes it stores and the one behind them, which becomes null if and only if the return value is not -1 |
| Readline.ReadByte | src_code/unpv13e/test/readline1.c:13-25 | the read of one byte, again while it is interrupted |
| Readline.ReadlineSlow | src_code/unpv13e/test/readline1.c:5-30 | the byte-at-a-time loop: return value and what is left of the stream; of the caller's buffer, the bytes stored, a null behind them unless the read failed, and every other byte as it was |
| Readline.LineReader.Refill | src_code/unpv13e/lib/readline.c:12-21 | the refill yields bytes, the end or an error, and loses nothing |
| Readline.LineReader.MyRead | src_code/unpv13e/lib/readline.c:8-26 | however the stream is cut into reads, the next byte, end or error is the one that comes next in it |
| Readline.LineReader.ReadlineFast | src_code/unpv13e/threads/readline.c:46-74 | the buffered loop: the same return value and rest as the slow one, and the same buffer, with the null behind the bytes unless the read failed and every other byte as it was |
| Readline.LineReader.ReadlineBuf | src_code/unpv13e/lib/readline.c:51-57 | the bytes handed out stand in the stream right before what the descriptor has yet to deliver |
| Readline.CallsConserve | src_code/unpv13e/lib/readline.c:28-49 | over any number of calls, delivered bytes and what is left are the stream |
| Readline.SlowCalls | src_code/unpv13e/test/readline1.c:5-30 | any sequence of calls of the slow version |
| Readline.FastCalls | src_code/unpv13e/lib/readline.c:28-49 | any sequence of calls of the buffered version |
| Readline.SideBySide | src_code/unpv13e/lib/readline.c:8-57 | for every stream, every cutting of it and every sequence of calls with maxlen at least 1, both versions return the same values and buffers and leave the same to read |
| AddrList.GaClone | src_code/unpv13e/libgai/ga_clone.c:8-30 | the new node follows the old one and is its copy, with an address of its own, without the clone flag and the canonical name |
| AddrList.Visit | src_code/unpv13e/libgai/ga_port.c:38-62 | one entry is passed over, filled in with the type and the port, or followed by a clone filled in with them |
| AddrList.GaPort | src_code/unpv13e/libgai/ga_port.c:30-65 | the walk over the list it is changing ends, leaves a well-formed list without shared addresses whose entries are those of one pass (AddrList.EntryInPlainTerms, EveryAddressEveryService), and counts the entries set |
| AddrList.ServeNumber | src_code/unpv13e/libgai/ga_serv.c:16-31 | the passes for a port number |
| AddrList.ServeName | src_code/unpv13e/libgai/ga_serv.c:32-48 | the passes for a service name, TCP before UDP |
| AddrList.GaServ | src_code/unpv13e/libgai/ga_serv.c:8-57 | the list after ga_serv is that of the passes for its service string, and the status follows from the number found; on a list getaddrinfo has built, field by field, there is one entry per address and service with that service's type and port and that address's host and family, or the port in every entry, and success exactly if there was a service |
| AddrList.ClonesKept | src_code/unpv13e/libgai/ga_port.c:37-47 | a pass for another socket type leaves clones with their own passes' ports |
| AddrList.PassesExpand | src_code/unpv13e/libgai/ga_port.c:6-27 | any number of passes for distinct nonzero types gives every address exactly one entry for each type, adjacent and in the order of the addresses, each with its own pass's type and port |
| AddrList.ExpandLength | src_code/unpv13e/libgai/ga_port.c:6-27 | k passes over n addresses leave n times k entries |
| AddrList.ExpandAt | src_code/unpv13e/libgai/ga_port.c:6-27 | the group of an address stands behind the groups of those before it |
| AddrList.GroupAt | src_code/unpv13e/libgai/ga_port.c:37-47 | in a group the first pass comes first and the latest right behind it |
| AddrList.EntryInPlainTerms | src_code/unpv13e/libgai/ga_port.c:37-63 | what one pass does to one entry, field by field, and whether it counts |
| AddrList.EveryAddressEveryService | src_code/unpv13e/libgai/ga_port.c:30-65 | after passes for k distinct types, entry g * k + j has the type and port of the first service if j is 0 and of service k - j otherwise, and the host, family and protocol of address g |
| AddrList.AtoiIsDecimal | src_code/unpv13e/libgai/ga_serv.c:16-17 | the number is the decimal value of the leading digits |
| AddrList.WantedByNumber | src_code/unpv13e/libgai/ga_serv.c:16-31 | a string that starts with digits asks for that port, modulo 65536, under the caller's type or under both |
| AddrList.WantedByName | src_code/unpv13e/libgai/ga_serv.c:32-48 | any other string asks for what getservbyname knows of it under the types the caller allows, TCP first |
| AddrList.ServiceDelivers | src_code/unpv13e/libgai/ga_serv.c:15-48 | for every service string and every answer of getservbyname, the list that getaddrinfo has built ends up so, field by field |
| AddrList.FoundExpand | src_code/unpv13e/libgai/ga_port.c:49-64 | the passes count k times n entries |
| AddrList.ServiceOutcome | src_code/unpv13e/libgai/ga_serv.c:15-56 | for every service string and every answer of getservbyname, on a list getaddrinfo has built: ga_serv fails exactly when there is no service, with the status for the caller's hint, and then has changed nothing; otherwise every address has one entry per service, or every entry its port |
| Rtt.RttInfo.Init | src_code/unpv13e/lib/rtt.c:22-35 | the initial estimators and timeout |
| Rtt.RttInfo.Stop | src_code/unpv13e/lib/rtt.c:80-102 | a sample moves both estimators and the timeout |
| Rtt.RttInfo.Timeout | src_code/unpv13e/lib/rtt.c:111-119 | a timeout doubles the timeout and says whether to give up |
| Rtt.Bounds | src_code/unpv13e/lib/rtt.c:80-102 | samples in [0, M] keep 0 <= srtt <= M and 0 <= rttvar <= max(0.75, M), and the timeout is within [2, 60] |
| Rtt.ClosedForm | src_code/unpv13e/lib/rtt.c:93-101 | for k equal samples, the distance of srtt is (7/8)^k of what it was, and rttvar is (3/4)^k (v0 - 2D) + 2D (7/8)^k |
| Rtt.StampDifference | src_code/unpv13e/lib/rtt.c:45-54 | the difference of two timestamps is the milliseconds in between, modulo 2^32 |
| SendRecv.WaitIsBounded | src_code/unpv13e/lib/rtt.c:62-67 | the alarms add up to 15 times the first timeout, give or take the rounding of four of them |
| SendRecv.CallOutcome | src_code/unpv13e/rtt/dg_send_recv.c:26-92 | whatever the network drops, delays, doubles or reorders: one to four transmissions, a bounded wait, giving up only after four, and a reply that echoes a transmission of this very call, whose age is the sample |
| SendRecv.CallInPlainTerms | src_code/unpv13e/rtt/dg_send_recv.c:60-92 | the alarms of a call are its first timeout, twice, four and eight times that, each rounded; a reply moves srtt by 1/8 and rttvar by 1/4 from where the call found them, and timeouts move neither |
| SendRecv.SentAtTheAlarms | src_code/unpv13e/rtt/dg_send_recv.c:55-79 | a call transmits when it is made and then at the alarms, one transmission at each |
| SendRecv.AlarmsCounted | src_code/unpv13e/rtt/dg_send_recv.c:68-79 | a call that still waits has seen at most three alarms, and counts them |
| SendRecv.EndsExactly | src_code/unpv13e/rtt/dg_send_recv.c:68-92 | a call ends exactly at the fourth alarm or at a datagram that holds a header and echoes this call; nothing else changes it |
| SendRecv.EveryCall | src_code/unpv13e/rtt/dg_send_recv.c:26-92 | over any run of fewer than 2^32 calls each starts from a settled timeout, with no doubling left in it |
| SendRecv.Client.SendAgain | src_code/unpv13e/rtt/dg_send_recv.c:60-63 | a transmission is stamped and sent, and its alarm set |
| SendRecv.Client.Expire | src_code/unpv13e/rtt/dg_send_recv.c:68-79 | an alarm sends again or gives up |
| SendRecv.Client.Receive | src_code/unpv13e/rtt/dg_send_recv.c:81-92 | a datagram is passed over or ends the call with its sample |
| SendRecv.Client.DgSendRecv | src_code/unpv13e/rtt/dg_send_recv.c:18-93 | the whole call is the run of the machine on the events that come |
| SelectServer.FullScanExact | src_code/unpv13e/tcpcliserv/tcpservselect01.c:66-81 | a scan of the whole table serves every ready client, and none twice |
| SelectServer.TurnsKeep | src_code/unpv13e/tcpcliserv/tcpservselect01.c:66-81 | what every turn of the scan keeps holds when it stops, and it stops with nready counted down or past maxi |
| SelectServer.TurnsIsFullScan | src_code/unpv13e/tcpcliserv/tcpservselect01.c:66-81 | the bound maxi and the early exit skip no ready client: the loop does what the full scan does |
| SelectServer.RoundServesTheReady | src_code/unpv13e/tcpcliserv/tcpservselect01.c:35-82 | a round serves each ready client once, quits exactly at a full table, and leaves in allset the new connection and not the finished ones |
| SelectServer.TableAfterRound | src_code/unpv13e/tcpcliserv/tcpservselect01.c:48-77 | entry by entry: the new connection in the first free one, those of ready clients at end of file free, and no other changed; and the two bounds |
| SelectServer.StepInv | src_code/unpv13e/tcpcliserv/tcpservselect01.c:35-82 | allset is the listening descriptor and the live clients, entries are distinct, and maxi and maxfd bound them, round after round |
| SelectServer.RunInv | src_code/unpv13e/tcpcliserv/tcpservselect01.c:35-82 | the same relations hold after any number of rounds |
| SelectServer.Server.constructor | src_code/unpv13e/tcpcliserv/tcpservselect01.c:26-31 | the initial table, set and bounds |
| SelectServer.Server.Enter | src_code/unpv13e/tcpcliserv/tcpservselect01.c:48-60 | a connection takes the first free entry, or finds none |
| SelectServer.Server.Scan | src_code/unpv13e/tcpcliserv/tcpservselect01.c:66-81 | the loop over the table, with its early exit |
| SelectServer.Server.Serve | src_code/unpv13e/tcpcliserv/tcpservselect01.c:36-81 | a round with its counts and early exits is the round in plain terms |
| Prefork.AcceptInv | src_code/unpv13e/server/serv05.c:50-68 | when a connection is accepted an idle child exists; "no available children" is not reached |
| Prefork.ScanInv | src_code/unpv13e/server/serv05.c:71-80 | in the scan a ready child is always still ahead, so that it ends by counting nsel down |
| Prefork.StepInv | src_code/unpv13e/server/serv05.c:43-81 | every step of parent and children keeps one token per child and the counts |
| Prefork.RunInv | src_code/unpv13e/server/serv05.c:43-81 | the tokens and counts are kept over any interleaving of parent and children |
| Prefork.GivenExact | src_code/unpv13e/server/serv05.c:60-65 | a child is given exactly the connections accepted for it |
| Prefork.GivenInOrder | src_code/unpv13e/server/child05.c:40-50 | in the order of accept, and none twice |
| Prefork.EveryRun | src_code/unpv13e/server/serv05.c:43-81 | navail counts the idle children, a child is idle exactly when nothing is in flight to, in or from it, connection k goes to one child only, and the counts printed at the end add up |
| Prefork.NeverStuck | src_code/unpv13e/server/serv05.c:44-47 | with a child and a client waiting to connect, some step can always be taken |
| Prefork.RoundInPlainTerms | src_code/unpv13e/server/serv05.c:44-80 | a round gives the connection to the first idle child and makes every ready child idle |
| Prefork.ChildTurn | src_code/unpv13e/server/child05.c:40-50 | a child that has been passed a connection can receive it, serves that one, and then has one ready byte for the parent and nothing else |
| Prefork.Server.Dispatch | src_code/unpv13e/server/serv05.c:54-65 | the search, the marks and the descriptor passed |
| Prefork.Server.Collect | src_code/unpv13e/server/serv05.c:73-76 | a ready byte is read and its child idle |
| Prefork.Server.ScanChildren | src_code/unpv13e/server/serv05.c:71-80 | the scan with its early exit |
| Prefork.Server.Round | src_code/unpv13e/server/serv05.c:44-80 | the parent from one select to the next, without the quit |
| Prefork.Server.Receive | src_code/unpv13e/server/child05.c:41-44 | a child takes its descriptor |
| Prefork.Server.Finish | src_code/unpv13e/server/child05.c:46-49 | a child has served it and reports |
| WebFetch.ConnectInv | src_code/unpv13e/nonblock/web.c:33-43 | a file to start is always found, it is the next in order, and counters and sets stay right |
| WebFetch.LookInv | src_code/unpv13e/nonblock/web.c:49-79 | the look at a file keeps counters and sets right |
| WebFetch.RunInv | src_code/unpv13e/nonblock/web.c:32-80 | counters and sets are right after any number of connections, selects and looks |
| WebFetch.EveryRun | src_code/unpv13e/nonblock/web.c:28-80 | nlefttoconn, nconn and nlefttoread count idle, active and unfinished files; nconn keeps to the limit; rset and wset hold exactly the descriptors of active and connecting files; the loop ends exactly when all are done |
| WebFetch.SelectHasWork | src_code/unpv13e/nonblock/web.c:33-47 | select is entered with a file being fetched if and only if the limit is at least one |
| WebFetch.ZeroLimitWaitsForEver | src_code/unpv13e/nonblock/web.c:32-47 | with a limit below one and a file to fetch, select is entered at once with empty sets; in every run no file is started or finished, and there is always a next step |
| WebFetch.AlwaysSomethingToDo | src_code/unpv13e/nonblock/web.c:32-47 | with a limit of at least one and files left, a connection may be started or there is one to wait for |
| WebFetch.OneConnectionEach | src_code/unpv13e/nonblock/web.c:49-79 | a file only moves on, and never gets a second connection |
| WebFetch.FillInPlainTerms | src_code/unpv13e/nonblock/web.c:33-43 | as many files as the limit, the files left and the sockets allow are started, in order, each on its own socket, and no other file changes |
| WebFetch.ScanInPlainTerms | src_code/unpv13e/nonblock/web.c:49-79 | of every file after select: one that was connecting and is readable or writable reads, one that was reading, is readable and at its end is done, and every other is as it was |
| WebFetch.Fetcher.StartConnect | src_code/unpv13e/nonblock/start_connect.c:20-30 | idle to connecting, or at once to reading |
| WebFetch.Fetcher.WriteGetCmd | src_code/unpv13e/nonblock/write_get_cmd.c:9-17 | to reading |
| WebFetch.Fetcher.ConnectNext | src_code/unpv13e/nonblock/web.c:34-42 | the search, the start and the counters |
| WebFetch.Fetcher.Fill | src_code/unpv13e/nonblock/web.c:33-43 | connections are started as the limit and the files allow, and "nothing found" is not reached |
| WebFetch.Fetcher.LookAt | src_code/unpv13e/nonblock/web.c:50-78 | what select found out about one file |
| WebFetch.Fetcher.Scan | src_code/unpv13e/nonblock/web.c:49-79 | the loop over all files |
| ChunkedWrite.CutsWellExactly | src_code/unpv13e/sock/write.c:32-52 | at most 16 adjacent chunks cover the buffer and the exit is not reached, if and only if the size fits an int |
| ChunkedWrite.ChunksMakeTheBuffer | src_code/unpv13e/sock/write.c:38-50 | the chunks put together are the buffer |
| ChunkedWrite.SizeIsASixteenth | src_code/unpv13e/sock/write.c:32-36 | the size of a chunk is a sixteenth of the buffer, rounded up, and at least 1 |
| ChunkedWrite.ChunksInPlainTerms | src_code/unpv13e/sock/write.c:38-50 | chunk k starts k sizes into the buffer and has that size, but for the last, which has what is left |
| ChunkedWrite.WriteOutcome | src_code/unpv13e/sock/write.c:57-64 | the return value is the number of bytes taken if every write was complete, and -1 otherwise |
| ChunkedWrite.Fill | src_code/unpv13e/sock/write.c:38-50 | the loop fills the entries with those chunks, or runs out of them exactly when something is left over |
| ChunkedWrite.WriteChunks | src_code/unpv13e/sock/write.c:57-64 | the writes in turn, up to the first partial one |
| ChunkedWrite.DoWrite | src_code/unpv13e/sock/write.c:17-66 | for every size and all three modes: the exit is taken exactly when the 16 entries run out, which no size below 2^31 does; the chunked writes of such a size return it if all were complete, and -1 otherwise |

## Left out

- DottedQuad.InetAton: the width of u_long is a parameter of at least 32 bits; the accumulator is reduced modulo it at every digit.
- Inet6Writer.InetNtop4: the size test lets a text of exactly the size through without room for its terminator, so a caller needs one character more; the model asks the caller for that room.
- Packets.SendV4: gettimeofday's result, the process identifier and nsent are parameters, and the buffer has the 1500 bytes the program gives it.
- ThreadPool.ExactlyOnceInOrder: says nothing of fairness; which worker gets the mutex is left open, and serving a client always ends.
- BoundedBuffer.ConsumedIsPrefix: a caller's value is fixed when it enters, and the condition variables are those of POSIX with spurious wakeups.
- SigioEcho.Server.EchoNext: signals come at the points of the loop where SIGIO is not blocked; a slot is its bytes, its sender and the length of the sender's address.
- Copier.Conserved: the function returns at the socket's end of file even if data for standard output is still in the buffer, so full delivery is not claimed.
- Readline.SideBySide: one descriptor and one reader at a time; the static buffer of lib/readline.c shared between descriptors is not modelled.
- AddrList.GaPort: an allocation always succeeds; the -1 and EAI_MEMORY paths are not modelled.
- AddrList.GaServ: the answers of getservbyname are parameters, and the int overflow of atoi is not modelled.
- Rtt.ClosedForm: the floats are reals, so rounding is not modelled.
- SendRecv.CallOutcome: an alarm before sigsetjmp has run is not modelled, and fewer than 2^32 calls are assumed so that sequence numbers stay distinct.
- SelectServer.Server.Serve: echoing the data (Writen), and descriptors beyond what an fd_set holds, are not modelled.
- Prefork.EveryRun: children do not end, read_fd finds its descriptor, and what web_child does with the connection is not modelled.
- WebFetch.Fetcher.LookAt: the message for a failed connection and the failing write that follows it are not modelled; the file goes on to reading as in the code.
- ChunkedWrite.DoWrite: the increment of chunksize and the sum of the writes are not wrapped to an int; below 2^31 bytes neither can reach its limit.
- Sockets, select, accept, DNS, fork and signals themselves: only what the calls return is modelled.
- The wrappers that end the program on an error, messages on the terminal, argument parsing, and home_page.
- inet_pton and inet_ntop as dispatchers on the address family; sprintf and strcpy appear as the texts they produce.
- server/readline.c and server/readline_r.c: at the end of a file after some data they return one more than the bytes read, so they do not match the version that reads a byte at a time.
- threads/web02.c, threads/web03.c, tcpcliserv/tcpservpoll01.c and icmpd: the same scheduler and table ideas in other dress.
- tv_sub, the sock_ accessors, the daytime and echo programs, multicast and socket options: easy members only.
