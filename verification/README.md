# A model of the OpenConnect client

OpenConnect is a VPN client. This project models four of its parts in Dafny and proves what they are for.

**The tunnel.** Packets read from the tun device wait in one queue. The queue is drained over TLS (CSTP) or, once that is connected,
over DTLS, through stalls, reconnects, rekeys, dead peers, pauses and optional compression. `Tunnel.Vpn` has the fields of the
source's state and a method for each loop. The results of system and library calls, and the clock, are arguments of the methods,
so a contract holds for all of them. Ghost fields record where each accepted packet is and every write made to TLS. `Valid()` is
the invariant: the account of the packets is complete, a frame that did not go through is still the current one, the queue
counter is right, the compression buffer is in use only with its original at hand, and state, handle and descriptor of DTLS agree.
Every method keeps it, so it holds in every reachable state of every run; `StrictFifo`, `ExactlyOneHome`, `PeerReceivesPrefix`,
`QueueLength` and `StalledFrameIsRepeated` say what follows from it. `Keepalive` holds the timers and the behaviour of a run
of checks against a silent peer, `Compression` the two ends of a compressed connection, `PktQueue` the linked list behind the queue.

**NTLM.** `Des` (block transformation, key schedule, expansion of 56-bit keys) with `DesFips`, which holds it against the tables and rounds of
FIPS 46-3, `Md4` with `Md4Values`, `NtHash`, `Utf16` (UTF-8 to UTF-16LE) and `Type3` (the layout of the type-3 message).

**HTTP and certificates.** `TextBuf` and `Base64`, `Chunked` (chunked bodies), `ProxyAuth` and `Digest` (proxy authentication with reconnects),
`Hostname` (wildcard matching of host names).

**HTML.** `HtmlStack` and `HtmlTables`: the stack of open elements of the bundled HTML parser and the SAX events it emits. Each input has an
effect on stack and trace given as a value; the methods refine it.

Loops whose length the environment decides take a finite list of its answers, and a run may be cut off anywhere in that list. Where the source
terminates, the contract says how long a list always suffices (`WriteOutgoing`, `TryToConnect`).

Some results differ from what one might expect of the code, and are stated as they are:

- The goto cycle of the TLS loop makes at most three writes more than there are queued packets at one clock reading, unless its timers are
  restless: with a live peer and no rekey due, a probe that is due with a period of one second, or a negative keepalive once there is
  something to write, is due again as soon as it is sent, and the cycle goes on as long as writes succeed. `WriteOutgoing` states this
  as an equivalence.
- A chunk size that is negative as an int makes the chunked reader read behind its allocation, and a chunk cut off by the end of the input makes it
  read for ever where reads come back empty. `OverrunIff` and `EndlessIff` say exactly when.
- A server that turns on compression nobody offered makes the next reconnect with nothing in flight queue a null packet (`RequeueSafe`).
- The goodbye frame may follow a frame that did not go through completely.
- Order is kept except by requeues of compressed packets, by DTLS overtaking a packet in flight on TLS, and by the packet that
  DTLS loses when the library wants to read first. Requeues do not count in the queue counter, so the queue can pass its limit by their number.
- A discarded html, head or body tag that is self-closed or not terminated closes the innermost open element instead (`MisplacedOutcome`).
- The UTF-16 conversion accepts surrogates encoded in UTF-8, so that reading back fails exactly for those.
- A type-3 message with a text that is not well-formed is built without an error, with a length of 65514 in the descriptor, and one with a text
  that is too long has its length cut to 16 bits: `TextExactIff` and `FieldsAreReadBackIff` say exactly when a field is read back.
- The bound on authentication reconnects needs a proxy password or NTLM out of the race; otherwise there is none (`ReconnectsWithoutBound`).

## Model

| member | source | states |
|---|---|---|
| `Keepalive.CheckDeadline` | core/mainloop.c:232-239 | Says whether a deadline has arrived; otherwise the timeout is cut so that the caller wakes at the deadline |
| `Keepalive.KaStalledAction` | core/mainloop.c:241-259 | Refines the declarative check made while a write is stalled: a due rekey wins over a dead peer, which here counts from the second 2*dpd on |
| `Keepalive.KeepaliveAction` | core/mainloop.c:262-302 | Refines the declarative periodic check: first of rekey, death (strictly after 2*dpd), probe, keepalive; which time is recorded; how far the timeout is cut in each case |
| `Keepalive.PeriodicFields` | core/mainloop.c:262-302 | The same check in the timers' own fields: which comparison of which fields gives which action, and what is recorded |
| `Keepalive.StalledFields` | core/mainloop.c:241-259 | The check of a stalled write in the fields, with its timeout |
| `Keepalive.LeastTimeout` | core/mainloop.c:232-302 | With nothing to do the timeout becomes exactly the least of itself and the times left to the enabled deadlines |
| `Keepalive.NeverSleepsPastADeadline` | core/mainloop.c:262-302 | After KA_NONE a caller that wakes within the returned timeout never sleeps past a rekey, a probe or a keepalive, and a positive timeout stays positive |
| `Keepalive.ProbeNotRepeatedIffPeriodAtLeastTwo` | core/mainloop.c:281-289 | At one clock reading a probe is not asked for twice exactly when the period is at least two seconds: with a period of one second it is asked for again at once |
| `Keepalive.ProbesSpaced` | core/mainloop.c:281-289 | In every silent run the probes start one period after the last traffic, lie inside the second period and are at least half a period apart, and the last one is remembered |
| `Keepalive.DeadPeerIsDetected` | core/mainloop.c:270-293 | For every run of checks without traffic: at most four probes (three unless the period is 3), the peer is given up by exactly the calls after R+2D, and the first such call comes no later than R+2D+D/2 |
| `Places.ExactlyOnePlace` | core/mainloop.c:77-81 | From the accounting invariant: each accepted packet is in exactly one of queue, flight, completed and dropped, once |
| `Places.NothingElse` | core/mainloop.c:77-81 | No place holds anything that was not accepted |
| `Places.AcceptGood` | core/mainloop.c:77-81 | Queueing a packet from the tun device keeps the account, including strict order while nothing was requeued, overtaken or dropped |
| `Places.DequeueGood` | core/cstp.c:954-956 | Taking the head of the queue into flight keeps the account |
| `Places.CompleteGood` | core/cstp.c:871-880 | Completing the packet in flight keeps the account |
| `Places.RequeueGood` | core/cstp.c:568-576 | Putting a compressed packet back at the tail keeps the account |
| `Places.SendDtlsGood` | core/dtls.c:824-832 | Sending the head over DTLS keeps the account |
| `Places.DropDtlsGood` | core/dtls.c:837-855 | Losing the head in the WANT_READ case keeps the account |
| `TunnelState.ExactlyOneDrains` | core/cstp.c:953 | The TLS and the DTLS loop are never both and never neither eligible to drain the queue, exactly outside the state before a secret exists |
| `TunnelState.PeerGetsWhatWasSent` | core/cstp.c:996-1007 | From any log of plain frames, what a peer parses out of the completed writes is the contents of the tun packets sent, in order, and nothing else |
| `TunnelState.OneMoreRead` | core/cstp.c:748-805 | How delivered payloads, the owed answer, the last receive time and a checksum failure change with one more read |
| `TunnelState.TypedRead` | core/cstp.c:751-825 | What a read with a well-formed header means, by the number in its seventh octet: probe, payload, compressed payload, end of the session with -32 or 1 |
| `TunnelState.UntypedRead` | core/cstp.c:743-764 | What a failed read, an unknown header and a wrong length mean |
| `Tunnel.Vpn.constructor` | core/openconnect-internal.h:295-372 | A tunnel with DTLS disabled satisfies the whole invariant |
| `Tunnel.Vpn.StrictFifo` | core/cstp.c:834-881 | As long as no packet was compressed and DTLS never connected, completed packets ++ packet in flight ++ queue is the accepted sequence, the completed ones are those whose write went through, and the queue holds at most max_qlen |
| `Tunnel.Vpn.PeerReceivesPrefix` | core/cstp.c:996-1007 | Then the peer has read, octet for octet and in order, a prefix of what the tun device delivered |
| `Tunnel.Vpn.QueueLength` | core/mainloop.c:82-88 | In every reachable state the queue is longer than outgoing_qlen by exactly the number of requeues in the log; the counter is at most max_qlen and below it while tun is read |
| `Tunnel.Vpn.ExactlyOneHome` | core/cstp.c:568-579 | In every reachable state each accepted packet is queued, in flight, completed or dropped: exactly one of these, once |
| `Tunnel.Vpn.StalledFrameIsRepeated` | core/cstp.c:834-868 | In every reachable log a write that did not go through is followed by the same octets, unless its packet was queued again or the session ended |
| `Tunnel.Vpn.ChecksumSinceConnect` | core/cstp.c:529-531 | In every reachable state with a started codec the sender's checksum is the Adler-32 of exactly what was compressed since the connection was made |
| `Tunnel.Vpn.OneTaker` | core/cstp.c:953 | In every reachable state exactly one of the TLS and the DTLS loop may take packets from the queue |
| `Tunnel.Vpn.TunMainloop` | core/mainloop.c:54-106 | Accepts exactly as many arrivals as there is room for, in order; tun is read afterwards exactly if the counter is below the limit; delivers incoming packets from the front |
| `Tunnel.Vpn.ReadTun` | core/mainloop.c:58-86 | The reading loop: the accepted packets are the first arrivals, in order, and reading stops exactly when the limit is reached |
| `Tunnel.Vpn.QueueFromTun` | core/mainloop.c:77-85 | One packet goes to the end of the queue |
| `Tunnel.Vpn.WriteTun` | core/mainloop.c:91-103 | Incoming packets leave from the front until the device takes no more |
| `Tunnel.Vpn.ReadIncoming` | core/cstp.c:748-829 | Processes exactly the reads before the first that ends session or connection: payloads in order, owed answer, receive time, running checksum, which reads make the session end, and how each ending is answered |
| `Tunnel.Vpn.ReadFrame` | core/cstp.c:751-825 | One read: header check, length check, packet type; the running checksum covers each inflated packet and is compared with the last four octets of the frame; a disagreement sets quit but reading goes on |
| `Tunnel.Vpn.HandleOutgoing` | core/cstp.c:836-881 | One write of the current packet is logged with its octets and its outcome; it stays current unless the write went through; a stall is answered by the stalled check, an error by a reconnect, a short write by giving up |
| `Tunnel.Vpn.FinishPacket` | core/cstp.c:871-880 | A completed write completes the packet in flight and keeps the invariant |
| `Tunnel.Vpn.TakeForTls` | core/cstp.c:953-1007 | The head of the queue becomes the current packet, compressed with running checksum or as a plain frame |
| `Tunnel.Vpn.FramePacket` | core/cstp.c:958-1003 | The frame for a packet: compressed output followed by the big-endian Adler-32 so far, or a plain data frame when compression is off, its codec not started, or failing |
| `Tunnel.Vpn.NextOutgoing` | core/cstp.c:883-1008 | What is written next: owed answer, then what the periodic check asks for, then the head of the queue if DTLS does not take it; a keepalive is left out when there is data |
| `Tunnel.Vpn.OneTrip` | core/cstp.c:836-1008 | One trip round the goto cycle is one write; at a fixed clock it makes the backlog strictly smaller if the timers are not restless, and leads to another trip if they are and the write goes through |
| `Tunnel.Vpn.WriteOutgoing` | core/cstp.c:834-1012 | At one clock reading the goto cycle ends if and only if it is not the case that something is to be written, no rekey is due, the peer is not dead, and either a probe with a period of one second is due or the keepalive is negative: otherwise there are at most three writes more than queued packets; in that case every list of successful writes, however long, is used up |
| `Tunnel.Vpn.MakeCstpConnection` | core/cstp.c:525-560 | TLS is open afterwards exactly on success; compression that was on gets its codec started and checksums that begin at 1; whether it is on afterwards is the server's choice; a new connection starts all timers |
| `Tunnel.Vpn.StartCodec` | core/cstp.c:529-553 | Codec, buffer and checksums are set up exactly if compression was on, and it is turned off if the codec does not start |
| `Tunnel.Vpn.StartCstpConnection` | core/cstp.c:269-508 | Compression is what the server chooses, whatever was offered; rekeying without a positive period is turned off; timers restart on success |
| `Tunnel.Vpn.RequeueDeflated` | core/cstp.c:568-576 | The original of a compressed packet goes to the tail of the queue, its frame is withdrawn from the log and the counter is not raised |
| `Tunnel.Vpn.PollCommand` | core/ssl.c:612-630 | A command is looked at only when none is pending |
| `Tunnel.Vpn.TryToConnect` | core/cstp.c:580-604 | The back-off loop: on giving up the sleeps add up to at least the timeout and less than the timeout plus 100, for intervals from 1 to 100; for a positive interval the number of attempts is bounded by the timeout |
| `Tunnel.Vpn.CstpReconnect` | core/cstp.c:562-606 | A plain or static packet in flight stays current across the reconnect, a compressed one is requeued; a null packet is queued exactly with compression on, no compression buffer and nothing in flight; TLS is open exactly if the connection was remade |
| `Tunnel.UnaskedCompression` | core/cstp.c:568-576 | The failing case is reached after a server turned on compression that was never offered |
| `Tunnel.Vpn.DtlsClose` | core/dtls.c:568-579 | Handle and descriptor go together |
| `Tunnel.Vpn.DtlsTryHandshake` | core/dtls.c:210-308 | Connected, still connecting for less than 12 seconds, or closed and sleeping; descriptor, handle and state agree after each |
| `Tunnel.Vpn.ConnectDtlsSocket` | core/dtls.c:463-566 | A new attempt only without a descriptor; which failures end all further attempts; the invariant holds after every exit |
| `Tunnel.Vpn.DtlsReconnect` | core/dtls.c:581-586 | Close and try again; sleeping unless the new attempt got at least as far as the handshake |
| `Tunnel.Vpn.SetupDtls` | core/dtls.c:588-668 | DTLS leaves the disabled state only by a connection attempt that got as far as the handshake |
| `Tunnel.Vpn.SendOneOverDtls` | core/dtls.c:826-885 | The head is sent, put back, or lost in the WANT_READ case; the counter follows |
| `Tunnel.Vpn.PutBack` | core/dtls.c:841-845 | A full socket leaves queue and counter as they were |
| `Tunnel.Vpn.PutBackAfterFailure` | core/dtls.c:846-857 | So does a failed send, after a new DTLS connection has been tried |
| `Tunnel.Vpn.DrainOverDtls` | core/dtls.c:824-888 | Packets are sent from the front until the queue is empty or one does not go through; a failed one is back at the front and DTLS is restarted |
| `Tunnel.Vpn.ReceiveOverDtls` | core/dtls.c:697-763 | Data packets are queued in order, other types only count as traffic |
| `Tunnel.Vpn.ServeConnected` | core/dtls.c:766-888 | Timers first: a rekey or a dead peer leaves the queue alone; otherwise the queue is drained as far as the library allows |
| `Tunnel.Vpn.DtlsRekey` | core/dtls.c:767-784 | A rekey inside the session handshakes again, and connects anew if that fails, with the state and result of each case; any other method does nothing |
| `Tunnel.Vpn.DtlsMainloop` | core/dtls.c:675-888 | Nothing leaves the queue unless DTLS is connected, and then from the front; a sleeping connection is tried again exactly when its period is over and otherwise cuts the timeout to it |
| `Tunnel.Vpn.Recover` | core/cstp.c:893-931 | A rekey inside the TLS session keeps connection, packet and queue; anything else reconnects; DTLS follows unless it is off or rekeys itself; a failure ends the session |
| `Tunnel.Vpn.Renew` | core/cstp.c:913-920 | A reconnection that fails ends the session; one that succeeds leaves TLS open or a pause pending |
| `Tunnel.Vpn.FollowWithDtls` | core/cstp.c:921-929 | DTLS is connected anew exactly if it is on and does not rekey itself |
| `Tunnel.Vpn.CstpMainloop` | core/cstp.c:733-1012 | One call of the TLS loop delivers exactly the payloads before the first read that ends it, returns what that read asks for, keeps the invariant, drops nothing, accepts nothing, and at a fixed clock with sane timers makes at most three writes more than there are queued packets |
| `Tunnel.Vpn.ServeTls` | core/cstp.c:748-1012 | The receiving and writing part of that call |
| `Tunnel.Vpn.Rest` | core/mainloop.c:171-184 | A pause closes both connections and loses nothing |
| `Tunnel.Vpn.CstpBye` | core/cstp.c:1014-1048 | The goodbye is written if TLS is open, even after an unfinished packet |
| `Tunnel.GoodbyeAfterStall` | core/cstp.c:1014-1048 | A run in which the goodbye follows a frame that stalled |
| `Tunnel.ProbeIsAnswered` | core/cstp.c:766-771 | For every tunnel with nothing in flight: after reads that hold the octets 83 84 70 1 0 0 3 0 before anything that ends the session, the next frame written is 83 84 70 1 0 0 4 0 |
| `Tunnel.Vpn.CurrentOctets` | core/cstp.c:50-60 | The static packets octet by octet: type 3 for a probe, 4 for its answer, 7 for a keepalive |
| `Tunnel.QueueBeyondItsLimit` | core/cstp.c:568-576 | A run in which the queue holds more packets than its limit |
| `Tunnel.ProbesForEver` | core/mainloop.c:281-289 | With a period of one second a run of any number of probes at one clock reading |
| `Tunnel.KeepalivesForEver` | core/mainloop.c:291-299 | With a keepalive of minus one a run of any number of keepalives at one clock reading |
| `Tunnel.Vpn.OneTurn` | core/mainloop.c:140-159 | DTLS, TLS, tun: what is accepted is a prefix of the arrivals, and because tun comes last it is read afterwards exactly if there is room |
| `Tunnel.Vpn.Mainloop` | core/mainloop.c:116-230 | Over every run of turns, pauses and commands the invariant holds and nothing accepted, completed or dropped is forgotten; which value is returned for which ending; with a compression buffer no null packet is ever queued |
| `PktQueue.Queue.QueuePacket` | core/mainloop.c:28-35 | Appends to the linked list in place |
| `PktQueue.Queue.QueueNewPacket` | core/mainloop.c:37-48 | Appends a copy of the octets |
| `PktQueue.Queue.Take` | core/cstp.c:954-956 | Removes the head, whose link still leads to the rest |
| `PktQueue.Queue.PutBack` | core/dtls.c:841-845 | A packet whose link still leads to the rest becomes the head again |
| `PktQueue.TakeAndPutBack` | core/dtls.c:826-846 | A send that did not go through leaves the linked list as it was |
| `CstpFrame.ParseFrame` | core/cstp.c:751-764 | A frame is read back as what was framed exactly when the payload is under 65536 octets |
| `CstpFrame.FrameParse` | core/cstp.c:751-764 | Every buffer read as a packet is the frame of that packet |
| `CstpFrame.StaticOctets` | core/cstp.c:50-60 | The three static frames octet by octet |
| `CstpFrame.DataOctets` | core/cstp.c:42-48 | Data and compressed frames octet by octet |
| `Compression.AdlerAppend` | core/cstp.c:629-630 | The running checksum of a stream does not depend on how it is cut into packets |
| `Compression.AdlerClosedForm` | core/cstp.c:629-630 | The running checksum that starts at 1 is the pair of sums of RFC 1950 in closed form, modulo 65521 |
| `Compression.Be32RoundTrip` | core/cstp.c:632-633 | The receiver reads back the checksum the sender wrote |
| `Compression.Sender.Send` | core/cstp.c:958-1003 | The frame, checksum and compressor state after one packet; a failing compressor gives a plain frame and leaves the checksum alone |
| `Compression.Receiver.InflateAndQueue` | core/cstp.c:608-649 | Unpacks and queues; the session is given up exactly when the running checksum disagrees with the last four octets of the frame, whatever the length of the payload; a failing inflater changes nothing |
| `Compression.Receiver.Receive` | core/cstp.c:751-825 | One read in compressed mode |
| `Compression.Deliver` | core/cstp.c:958-994 | One packet across a lossless codec: it arrives, and both checksums agree |
| `Compression.Session` | core/cstp.c:958-994 | Any sequence of packets under 64 KiB through any lossless stateful codec arrives unchanged; both checksums are the Adler-32 of everything compressed since the start and the receiver never gives up |
| `Des.XorTwice` | core/ntlm.c:523-534 | Xoring the same round value twice restores the half |
| `Des.RoundUndone` | core/ntlm.c:523-534 | A round on swapped halves undoes the same round on the other side |
| `Des.RoundsCancel` | core/ntlm.c:579-595 | With the keys reversed and the halves swapped, m rounds undo the last m, whatever the S-boxes |
| `Des.FinalUndoesInitial` | core/ntlm.c:537-613 | The closing delta swaps undo the opening ones |
| `Des.InitialUndoesFinal` | core/ntlm.c:537-613 | And the opening ones undo the closing ones |
| `Des.InitialIsFips` | core/ntlm.c:551-577 | The opening delta swaps are the initial permutation of FIPS 46-3, up to the rotation by one that the code keeps its halves in |
| `Des.ReversedKeysDecrypt` | core/ntlm.c:537-625 | For all S-box contents and round keys the block transformation with the keys reversed undoes it |
| `Des.SixteenRounds` | core/ntlm.c:579-595 | The sixteen written-out rounds, in which each half keeps its variable, are the rounds of the specification |
| `Des.Des` | core/ntlm.c:537-625 | Transforms the block in place as the specification function says |
| `Des.DecryptScheduleReversed` | core/ntlm.c:669-707 | The decryption schedule is the encryption schedule backwards |
| `Des.DecryptUndoesEncrypt` | core/ntlm.c:669-707 | For every key and block, des under the decryption schedule undoes des under the encryption schedule |
| `Des.ParityIgnored` | core/ntlm.c:630-707 | Keys that agree in the seven high bits of each octet have the same schedule |
| `Des.DesKey` | core/ntlm.c:669-707 | Fills in the schedule of the specification: permuted choices and rotations |
| `Des.PickKeyBits` | core/ntlm.c:677-684 | Permuted choice 1 |
| `Des.MakeSubkey` | core/ntlm.c:685-706 | Rotation, permuted choice 2 and packing of one round key |
| `Des.SetupSchedule` | core/ntlm.c:709-736 | Each of the eight octets holds its seven key bits and has odd parity, and the schedule is that of these octets |
| `Des.CountBits` | core/ntlm.c:709-736 | The parity loop |
| `Des.ScheduleOf56Bits` | core/ntlm.c:709-736 | The schedule depends on the 56 bits alone |
| `DesFips.InitialBit` | core/ntlm.c:551-577 | The initial permutation bit by bit: which bit of the block each bit of the halves is |
| `DesFips.MixIsFips` | core/ntlm.c:523-534 | For all tables, halves and round keys: on a half kept rotated by one bit the round macro sums the lookups of the six bits that table E selects, xored with the six-bit groups of the round key |
| `DesFips.RoundsAreFips` | core/ntlm.c:579-595 | Rounds in place on rotated halves are the rounds of FIPS 46-3 with exchanged halves, any number of them |
| `DesFips.CipherIsFips` | core/ntlm.c:537-625 | For all round keys the block transformation is that of FIPS 46-3 |
| `DesFips.Choice1Is` | core/ntlm.c:632-642 | The table is permuted choice 1 in closed form |
| `DesFips.TotalIs` | core/ntlm.c:644-647 | The total rotations are the running sums of single shifts in rounds 1, 2, 9 and 16 and double ones in all others |
| `DesFips.CdIs` | core/ntlm.c:685-693 | Shifting the two 28-bit halves round by round gives the bits that one rotation by the total gives |
| `DesFips.SubkeyIsFips` | core/ntlm.c:669-707 | For every key and round the eight groups of the packed round key are the bits that permuted choice 2 selects after that many shifts |
| `DesFips.DesIsFips` | core/ntlm.c:537-707 | For every key, block and contents of the S-boxes the program's schedule and block transformation compute what FIPS 46-3 defines: permuted initially, the output is what sixteen rounds make of the permuted input, with the halves exchanged |
| `Md4.Table2` | core/ntlm.c:330-345 | The words of the second round are those of section 3.4 of RFC 1320 |
| `Md4.Table3` | core/ntlm.c:347-362 | The words of the third round are those of section 3.4 of RFC 1320 |
| `Md4.Round1` | core/ntlm.c:313-328 | Sixteen written-out operations are the first sixteen of the rotating-register definition |
| `Md4.Round2` | core/ntlm.c:330-345 | The next sixteen |
| `Md4.Round3` | core/ntlm.c:347-362 | The last sixteen |
| `Md4.Block` | core/ntlm.c:308-367 | One block is compressed as RFC 1320 defines |
| `Md4.Pad` | core/ntlm.c:276-293 | Padding in place behind the text: the buffer then holds the padded message, the space reserved covers every octet written, the text itself is unchanged |
| `Md4.PaddingLength` | core/ntlm.c:281-282 | The padding is the shortest that leaves room for the length, and the total is a multiple of 64 |
| `Md4.AllBlocks` | core/ntlm.c:300-368 | The block loop folds the compression over all blocks |
| `Md4.Md4Sum` | core/ntlm.c:274-388 | For every text the digest is MD4 of RFC 1320; it fails exactly when the padded text passes the buffer cap; a buffer that is large enough is not reallocated |
| `Md4Values.FSelects` | core/ntlm.c:269-271 | F selects bit by bit |
| `Md4Values.GIsMajority` | core/ntlm.c:269-271 | G is set where at least two of three bits are |
| `Md4Values.HIsParity` | core/ntlm.c:269-271 | H is set where an odd number of three bits are |
| `Md4Values.InitOctets` | core/ntlm.c:295-298 | The starting registers as sixteen octets |
| `Md4Values.OctetsWord` | core/ntlm.c:370-385 | Reading stored octets as a word gives the word back |
| `Md4Values.LengthIsLittleEndian` | core/ntlm.c:290-293 | The length in bits is written low-order octet first |
| `Md4Values.EmptyText` | core/ntlm.c:274-388 | The digest of the empty text is 31d6cfe0d16ae931b73c59d7e0c089c0, worked out through all 48 operations |
| `NtHash.NtlmNtHash` | core/ntlm.c:827-857 | Hashes exactly the well-formed passwords that fit: MD4 of the UTF-16LE form and five zeros; the array reserved at the start is the only one that holds the converted password, and it is wiped |
| `NtHash.ReservedCovers` | core/ntlm.c:832-836 | The reserved space covers the converted password and its padding |
| `Utf16.FirstCharIff` | core/ntlm.c:747-779 | The checks accept exactly the encodings of section 3 of RFC 3629 (extended to surrogate code points) |
| `Utf16.Utf8RoundTrip` | core/ntlm.c:747-779 | A text is decoded to a list of code points exactly if it is their encoding: overlong forms, bad or missing tails and values above 0x10FFFF are rejected |
| `Utf16.Utf16RoundTrip` | core/ntlm.c:781-795 | Reading the output back gives the same code points exactly when none of them is a surrogate, which the code does not reject |
| `Utf16.Lead` | core/ntlm.c:749-769 | Classification of lead octets |
| `Utf16.ReadChar` | core/ntlm.c:747-779 | Reads one character and never looks past the terminator |
| `Utf16.AppendUnits` | core/ntlm.c:781-795 | One code point as one or two little-endian units |
| `Utf16.BufAppendUtf16le` | core/ntlm.c:738-798 | Accepts exactly the well-formed texts that fit and returns the length appended; any other text that fits is rejected after its well-formed beginning has been appended, without an error in the buffer; lack of room is exact; at most twice the length of the input; no reallocation if that much is reserved |
| `Utf16.GoodPrefixWhole` | core/ntlm.c:747-779 | The well-formed beginning of a well-formed text is all of it |
| `Type3.Describe` | core/ntlm.c:928-949 | A descriptor holds length, length and position, and nothing else changes |
| `Type3.SetStringUtf8` | core/ntlm.c:928-938 | An error is recorded exactly for lack of room; otherwise the descriptor has the position and the length the conversion returned, cut to 16 bits, which is 65514 for an ill-formed text, of which the well-formed beginning has been appended |
| `Type3.TextExactIff` | core/ntlm.c:928-938 | The length in a text's descriptor is right if and only if the text is well-formed and under 65536 octets, or ill-formed with a beginning of exactly 65514 octets |
| `Type3.SetStringBinary` | core/ntlm.c:940-949 | The descriptor matches the appended octets |
| `Type3.StillDescribed` | core/ntlm.c:928-949 | Adding another field disturbs no earlier one |
| `Type3.Build` | core/ntlm.c:1017-1048 | Building fails exactly if the fields and a NUL do not fit; every message built has its five regions contiguous after the 64-octet head up to the end, with signature, type and flags kept |
| `Type3.HeadOctets` | core/ntlm.c:917-926 | The octets of the head outside the five descriptors |
| `Type3.FieldsAreReadBackIff` | core/ntlm.c:1017-1048 | Following each of the five descriptors gives exactly the octets appended if and only if its length is right |
| `Type3.IllFormedUser` | core/ntlm.c:928-938 | A user name of one stray continuation octet: the message is built without an error and the descriptor leads out of it |
| `TextBuf.Buf.EnsureSpace` | core/http.c:49-69 | Fails exactly when the rounded-up capacity passes the cap of 131072; otherwise there is room and the text is unchanged; capacity stays a multiple of 4096 |
| `TextBuf.Buf.AppendBytes` | core/http.c:99-110 | Appends and terminates, or records the error and leaves the text alone |
| `Base64.B64Char` | core/http.c:1650-1663 | The digit of a character |
| `Base64.Alphabet` | core/http.c:1719-1728 | The 64 digits in order |
| `Base64.SameNumber` | core/http.c:1736-1754 | Four digits stand for the same 24-bit number as three octets |
| `Base64.DigitOfDigit` | core/http.c:1719-1724 | The decoding table inverts the encoding table |
| `Base64.DecodeEncode` | core/http.c:1726-1759 | decode(encode(b)) == b for every octet string |
| `Base64.EncodeDecode` | core/http.c:1665-1711 | encode(decode(s)) == s exactly when the unused trailing bits of s are zero |
| `Base64.Base64Decode` | core/http.c:1665-1717 | The decoding loop computes the decoding function and fails exactly where it does |
| `Base64.DecodeFour` | core/http.c:1681-1711 | One group of four characters |
| `Base64.BufAppendBase64` | core/http.c:1726-1759 | Appends the encoding; the space reserved covers every octet and the final NUL |
| `Base64.PutGroup` | core/http.c:1738-1756 | One group of up to three octets |
| `Base64.ReserveCovers` | core/http.c:1734 | The amount reserved is enough |
| `Chunked.DecodeEncode` | core/http.c:354-399 | Every body in any split into non-empty chunks is decoded to its octets, and reading stops right after the final empty line, whatever the system does at the end of the input |
| `Chunked.ChunkLen` | core/http.c:364 | A chunk size is a signed 32-bit number |
| `Chunked.SizeIsRead` | core/http.c:364 | For every number written in hexadecimal, in either case, with leading zeros and with an extension behind it: it is read as it stands below 2^31, and as exactly what is left of it otherwise |
| `Chunked.DecodeWritten` | core/http.c:354-399 | Chunks with sizes written that way are decoded to their octets, and reading stops right after the final empty line |
| `Chunked.LongLineIsCut` | core/http.c:356 | A line without end is cut after 131071 octets |
| `Chunked.OverrunIff` | core/http.c:364-382 | Reading leaves its allocation if and only if a size line that is reached, after complete chunks, has a negative number for which the allocation still succeeds |
| `Chunked.EndlessIff` | core/http.c:372-382 | Reading never ends if and only if reads come back empty at the end of the input and a chunk that is reached is longer than the input |
| `Chunked.MinusOneOverruns` | core/http.c:364-382 | A size of minus one at the start is such a number if an allocation of no octets gives a block |
| `Chunked.TruncatedChunkIsEndless` | core/http.c:372-382 | A chunk of five octets cut off after one: endless with empty reads, a failure otherwise |
| `Chunked.Wire.Gets` | core/http.c:356-363 | One line is read octet by octet for every schedule of reads |
| `Chunked.ReadChunk` | core/http.c:372-382 | A chunk is read completely by short reads, inside its allocation; with too little input it fails, or repeats empty reads until the run is cut off |
| `Chunked.NextChunk` | core/http.c:356-399 | One turn of the loop agrees with the decoding function and reads into done+chunklen+1 octets; a negative size leads outside exactly where the function says |
| `Chunked.ReadBody` | core/http.c:354-399 | For every input and every schedule of short reads the outcome is that of the decoding function: body, error, read outside the allocation, or a run that every number of reads cuts off; any other run ends within as many reads as there are octets; the body is NUL-terminated inside its allocation |
| `ProxyAuth.EnabledShrinks` | core/http.c:1829-1885 | If failed and disabled methods stay, the number of enabled ones never grows, and shrinks when one is retired |
| `ProxyAuth.Proxy.NtlmAuthorization` | core/ntlm.c:1066-1100 | The state machine: single sign-on, type-1 message, answer to the challenge, failure |
| `ProxyAuth.Proxy.SetProxyAuth` | core/http.c:1986-2010 | The methods named are enabled, all others disabled |
| `ProxyAuth.Proxy.DigestAuthorization` | core/digest.c:81-107 | One answer per connection; being asked again retires the method |
| `ProxyAuth.Proxy.BasicAuthorization` | core/http.c:1761-1795 | Refused unless the user chose the methods; one answer per connection |
| `ProxyAuth.Proxy.ProxyAuthorization` | core/http.c:1812-1827 | Failed and disabled are absorbing; a request for a new connection retires a method for good, unless the single sign-on helper made it |
| `ProxyAuth.Proxy.HandleAuthProto` | core/http.c:1829-1851 | An offer makes an unseen method available and never revives a retired one |
| `ProxyAuth.Proxy.OfferNames` | core/http.c:1797-1809 | Which header values offer which method |
| `ProxyAuth.Proxy.ProxyHeaders` | core/http.c:1853-1864 | A method gets available exactly if it was unseen and one of the values offers it; retired methods stay retired |
| `ProxyAuth.Proxy.ClearAuthState` | core/http.c:1866-1885 | A reset forgets progress but not failure |
| `ProxyAuth.Proxy.ProcessHttpProxy` | core/http.c:1888-1958 | Over every sequence of challenges on one connection, EAGAIN leaves fewer methods enabled if there is a password or NTLM is out of the race |
| `ProxyAuth.Proxy.ProcessProxy` | core/http.c:1960-1984 | The same for the whole connection, after which every method is out of the race or not yet offered |
| `ProxyAuth.Proxy.ConnectHttpsSocket` | core/ssl.c:295-307 | With a password, or with NTLM out of the race, the number of reconnects never exceeds the number of methods enabled at the start; otherwise every number of connections on which the helper asks for another one gives as many reconnects |
| `ProxyAuth.BoundedIff` | core/ntlm.c:1076-1084 | Between connections these are the only two cases |
| `ProxyAuth.ReconnectsWithoutBound` | core/ssl.c:295-307 | In the second case, for every n, connections that make n reconnects |
| `ProxyAuth.SingleSignOnReconnectsForFree` | core/ntlm.c:1076-1084 | Without a password the bound does not hold: the helper can ask for a new connection and leave all methods enabled |
| `Digest.UnescapeEscape` | core/digest.c:57-65 | Unescaping undoes escaping |
| `Digest.QuotedRoundTrip` | core/digest.c:29-65 | An escaped string between quotes is read back as itself, whatever follows |
| `Digest.BufAppendUnq` | core/digest.c:57-65 | Appends the escaped string |
| `Digest.GetQs` | core/digest.c:29-55 | Reads a quoted string exactly as the specification function does, and where it stops |
| `Hostname.MatchHostnameElem` | core/openssl.c:853-886 | The backtracking search decides exactly the declarative relation: the star stands for one or more characters, other characters are compared without case |
| `Hostname.ToUpperSame` | core/openssl.c:880-881 | The comparison takes a character for itself and a letter for its other form, 32 apart |
| `Hostname.LabelsJoined` | core/openssl.c:888-905 | Labels are the pieces without dots that make up the name |
| `Hostname.Split` | core/openssl.c:868-880 | A star matches at some split or nowhere |
| `Hostname.NameMatchesStep` | core/openssl.c:888-918 | Names match label by label |
| `Hostname.MatchHostname` | core/openssl.c:888-918 | Accepts exactly if both names have the same number of labels and each host label matches its pattern label; always ends |
| `HtmlTables.CheckAutoClose` | libxml2-2.7.8/HTMLparser.c:1254-1281 | The table scan decides whether a start tag closes an element |
| `HtmlTables.GetEndPriority` | libxml2-2.7.8/HTMLparser.c:1231-1240 | The table scan finds the priority of an end tag |
| `HtmlTables.EndPriorityIs` | libxml2-2.7.8/HTMLparser.c:1158-1172 | The priority of every name |
| `HtmlStack.ReplayPop` | libxml2-2.7.8/HTMLparser.c:194-210 | Popping the innermost element with its end event keeps trace and stack in step |
| `HtmlStack.ShapePush` | libxml2-2.7.8/HTMLparser.c:1445-1499 | Which pushes keep the shape: html at the bottom, head just above it, one body |
| `HtmlStack.PushPlaced` | libxml2-2.7.8/HTMLparser.c:3628-3668 | A start tag that is not misplaced keeps the shape |
| `HtmlStack.Parser.NamePush` | libxml2-2.7.8/HTMLparser.c:164-186 | Pushes, enlarging the table when it is full, and records head and body |
| `HtmlStack.Parser.NamePop` | libxml2-2.7.8/HTMLparser.c:194-210 | Pops the innermost element |
| `HtmlStack.Parser.AutoClose` | libxml2-2.7.8/HTMLparser.c:1361-1381 | Closes exactly the elements on top that the tag closes, with their end events |
| `HtmlStack.Parser.AutoCloseOnEnd` | libxml2-2.7.8/HTMLparser.c:1335-1346 | Closes everything, with the end events |
| `HtmlStack.Parser.AutoCloseOnClose` | libxml2-2.7.8/HTMLparser.c:1291-1326 | Closes down to the last element of the name if nothing of higher priority is above it, and otherwise nothing |
| `HtmlStack.Parser.FindOpen` | libxml2-2.7.8/HTMLparser.c:1297-1313 | Finds the last element of the name unless something of higher priority is in the way |
| `HtmlStack.EndTagCuts` | libxml2-2.7.8/HTMLparser.c:3839-3892 | An end tag leaves the stack alone or cuts it just below the last element of that name; each element closed on the way has a priority no higher than the tag and gets its end event |
| `HtmlStack.Parser.ParseEndTag` | libxml2-2.7.8/HTMLparser.c:3800-3895 | Swallows one misplaced html, head or body per discarded start tag; otherwise has exactly the effect stated for end tags |
| `HtmlStack.Parser.CheckImplied` | libxml2-2.7.8/HTMLparser.c:1445-1499 | Opens exactly the implied html, head or body |
| `HtmlStack.ImpliedPlaces` | libxml2-2.7.8/HTMLparser.c:1445-1499 | What the implied elements are for: everything is below html, head matter in a head, content in a body or head unless a body was seen before |
| `HtmlStack.Parser.CheckParagraph` | libxml2-2.7.8/HTMLparser.c:1512-1541 | Text opens a paragraph exactly where the innermost element takes no content |
| `HtmlStack.Parser.ParseStartTag` | libxml2-2.7.8/HTMLparser.c:3587-3782 | Closes, implies and opens in this order, with all events; discards exactly misplaced html, head and body, and counts them |
| `HtmlStack.Parser.CheckMisplaced` | libxml2-2.7.8/HTMLparser.c:3628-3668 | Which start tags are discarded |
| `HtmlStack.MisplacedIff` | libxml2-2.7.8/HTMLparser.c:3628-3668 | A start tag is discarded exactly if opening its element would break the shape of the stack |
| `HtmlStack.Parser.ParseElementInternal` | libxml2-2.7.8/HTMLparser.c:4290-4373 | An element with all its events: closed at once if empty, abandoned if the start tag is not terminated |
| `HtmlStack.ElementOutcome` | libxml2-2.7.8/HTMLparser.c:4330-4370 | A self-closed element, or an empty one whose tag ends, leaves the stack it was opened on, with a start and an end; any other stays open; an unterminated one is abandoned |
| `HtmlStack.MisplacedOutcome` | libxml2-2.7.8/HTMLparser.c:4313-4370 | A discarded tag opens nothing, but how it ends decides about the innermost open element: self-closed, it closes that one |
| `HtmlStack.Parser.Step` | libxml2-2.7.8/HTMLparser.c:4383-4440 | Every input has exactly its stated effect on stack and trace |
| `HtmlStack.Parser.Run` | libxml2-2.7.8/HTMLparser.c:4383-4440 | For every sequence of inputs the trace is properly nested and replaying it gives the stack; with implied tags html is at index 0 and nowhere else, head only at index 1, body at most once |

## Left out

- Sockets, select, TLS and DTLS library calls, zlib, tun device calls, scripts, command line and configuration: their results are arguments.
- Allocation failure, freeing and the width of C integers, except where a field has 16 or 32 bits.
- Tunnel.Vpn.StartCstpConnection: parsing of the server's headers; timer settings are arbitrary.
- Tunnel.Vpn.ReadFrame: the inflater's answer is an argument; a server's text in a disconnect packet is not looked at.
- Tunnel.Vpn.PeerReceivesPrefix: what a peer unpacks from compressed frames is proved for a connection without stalls and reconnects in module Compression; the tunnel's compressor answers are arbitrary, and only its checksum is tied to the connection.
- Keepalive.DeadPeerIsDetected: that the caller comes back within the timeout, or within half a period after it had something to do, is assumed of select and of the turns of the main loop.
- Tunnel.Vpn.StalledFrameIsRepeated: nothing is said about writes after a goodbye, since the main loop makes none.
- Tunnel.Vpn.ReceiveOverDtls: answers to DTLS probes are not part of the state; magic packets sent over DTLS are not logged.
- Compression.Receiver.Receive: what the inflater makes of a payload shorter than the checksum is an argument.
- Des.Cipher: the contents of the S-boxes are a parameter, so `DesFips.DesIsFips` holds for all contents; that the program's tables hold the S-boxes of FIPS 46-3 followed by its permutation P and a rotation is not part of this model.
- Tunnel.Vpn.QueueFromTun: the tunnel keeps its queues as sequences; the operations on the linked list are in module PktQueue.
- Hashes other than the NT hash (LAN manager hash, MD5 of digest authentication), the NTLM response computation and the single sign-on helper's messages.
- Chunked.ReadBody: reads are empty only at the end of the input; what follows a read outside the allocation is not defined; sums of sizes do not overflow an int.
- ProxyAuth.Proxy.ConnectHttpsSocket: the build with OpenSSL and without GSSAPI or SSPI; the three methods are NTLM, Digest and Basic. No bound is claimed on 407 rounds within one connection.
- HtmlStack.Parser.ParseStartTag: tag names are taken as read, in lower case; attributes, characters, comments and encodings do not reach the stack.
- The push-mode HTML parser, the entity table and the output of entities.
- `buf_append` with its retry: the model uses the variant that appends octets.
- The GnuTLS and Windows variants.
