# SSH 1.2.33: channels, packets, ciphers and keys

This project models the protocol stack of SSH 1.2.33 from the channels down to the arithmetic of
the keys, and proves what each layer promises to the one above it. Everything that changes state
in C changes state here: the slot table, the buffers, the cipher contexts, the hash table of the
attack detector, the digest context, the generator's table and the known-hosts file are classes or
arrays updated in place, and every method is proved against a function of its old state. The
theorems are about those functions and hold for all inputs, all runs and all reachable states.

**Channels** (`Channels`, `ChannelLaws`, `ChannelTables`, `ChannelSafety`, `ChannelBytes`,
`ChannelRuns`, `ChannelTheorems`, `ChannelProgress`, `ChannelDelivery`). Two endpoints with growable slot tables and two FIFO links.
A run is any sequence of message receipts, select passes (prepare and after, as one trip through
the server loop), output polls and new listeners at either end, with the operating system
answering in any way. In every state of every run no handler reaches a protocol disconnect or a
failed assertion; a freed slot has no message on its way to it; the flags an endpoint still misses
from a peer that is gone are exactly the messages in flight; and no byte is lost, duplicated or
reordered while the receiving end still takes output. And every connection whose inputs are closed
can still be brought to its end: some continuation writes all that was read and frees both slots.
While the input at one end and the output at the other are open, whatever the socket offers can be
brought to the other end. `ChannelLaws` says what single handlers come to: the exact read and write
sets, the flags and messages of every close, and when the assertion in `channel_free` fails.
The key invariant, `Flow`, reads the messages in flight to a slot as a path from the receiver's
flags to the sender's.

**Packets** (`Packets`, `PacketChecks`, `PacketStreams`, `PacketRuns`, `CrcBursts`) on **buffers** (`Buffers`, `Bufaux`,
`Memmove`). A frame is length, padding, type, data and CRC, encrypted behind the length. In every
run of sends, arbitrary fragments, polls and changes of key the reader never disconnects and
returns the packets that were sent, without IGNORE and DEBUG, and so the items put into them are
the items got. A frame is taken if and only if its octets end in their CRC and the detector lets it
pass, and every burst of at most four octets in a frame sent in the clear or under Arcfour is
refused, but for one pattern. The buffer with its compaction and growth refines a queue of octets.

**Ciphers** (`Des`, `DesRounds`, `DesKeys`, `DesCbc`, `Idea`, `IdeaCfb`, `Blowfish`,
`BlowfishKeys`, `Arcfour`, `Modes`, `Ciphers`, `CipherContexts`, `CipherLaws`). Decryption inverts encryption over any number of calls and
leaves both contexts equal, for every key schedule, with source and destination allowed to be the
same memory. The DES schedule starts with the standard's permutation, which leaves out the
parity bits and no others; `DesRounds` has the standard's description bit by bit, from the initial
permutation over the expansion to the sixteen rounds and their subkeys, and `CipherLaws` that of
Blowfish, Arcfour, CBC, CFB and triple DES; the Blowfish schedule depends on 72 octets of the key read around and around.
`mulop` is multiplication modulo 65537, and the optimised IDEA with its half-masked
words is the textbook cipher.

**Checksum and attack detector** (`Crc32`, `BlockCrc`, `Deattack`). The table-driven CRC is the
shift register and is linear; the hash-table detector agrees with the quadratic definition for
every packet it accepts.

**Keys** (`Numbers`, `Rsa`, `RsaPadding`, `PrimeSearch`, `KeyGeneration`). From Euclid's algorithm,
the binomial theorem, Fermat's little theorem and the Chinese remainder theorem to: every key that
`rsa_generate_key` can produce carries every message that fits through padded encryption and back.

**Self-contained refinements** (`Md5`, `Random`, `Match`, `Hostfile`, `KnownHosts`, `HostLines`).

`Bytes`, `MachineWords` and `Options` hold the types the layers share.

## Results that correct the code's own account

- `newchannels.c:1045-1050`: the open request for a connection to a forwarded port is filled in
  from the listener's channel through a pointer taken before `channel_allocate`, which may have
  moved the array. The request names the listener's address whatever freed memory holds if and only
  if the table had a slot left (`Channels.RequestReadsListener`); ten listeners fill the first
  table, and the next connection reads freed memory (`ChannelTables.FullTable`).
- `deattack.c:118`: after a block equal to the vector that passes no alarm, the `break` leaves the
  loop over all blocks, so that later blocks of a short packet are not looked at. It can never
  change the answer: `Deattack.ShortNeverAttack` proves that a packet of at most seven blocks is
  never an attack, with or without a vector, because the CRC of an indicator message of at most
  eight words, not all zero, is not zero. So the equivalence holds without any restriction.
- `packet.c:439-443, 580-588`: the check octets do not see every burst of 32 bits. They are stored
  high octet first, while the CRC runs low bit first, so the pattern 61 d8 f4 ee over the last two
  covered octets and the first two check octets is not seen in a frame sent without a cipher or
  under Arcfour. It is the only one: any other change within four consecutive octets behind the
  length field is refused (`PacketChecks.AlteredIsRefused` is the equivalence,
  `PacketChecks.AlterationNotSeen` a packet of type 14 that is read as type 0xd6).
- `match.c:91-95`: a pattern that ends in two stars rejects strings it denotes.
  `Match.MeaningIsDecided` proves that this is the only case.
- `rsa.c:625-667`: `rsa_private` is input^d mod n except when the input is a multiple of a prime
  whose reduced exponent is zero, and then it never is (`Rsa.RsaPrivate` has both directions,
  `Rsa.ReducedExponentZero` an example).
  Derived keys never have such an exponent.
- `rsa.c:439-449`: with `ebits` = 0 the search for the exponent would try even numbers only and not
  end (`Rsa.EvenExponentNeverFits`); the program passes 5.
- `random.c:294-295`: the comment calls `setstate` with the current array harmless. It goes back to
  the position that was saved last. After n draws it is harmless if and only if the generator is the
  linear one or its table repeats itself n places on (`Random.SameStateExactly`,
  `Random.State.SetStateAfterDraws`), as it does when n is a whole number of rounds, and not in
  general (`Random.SameStateRewinds`).
- `hostfile.c:287-319`: an entry added behind a last line without its newline joins that line. The
  added host may then not be found (`KnownHosts.UnfinishedLineHides`), and the key of another host
  may change (`KnownHosts.UnfinishedNumberChanges`). `KnownHosts.AddedIsKnown` and
  `KnownHosts.AddedElsewhere` say for every file exactly when it goes well; a file whose last line
  is finished, as every file the program wrote is, is always such when the entry fits into the
  line buffer (`KnownHosts.AddedToFinished`).

## Model

| member | source | states |
|---|---|---|
| ChannelTheorems.NoDisconnect | newchannels.c:677-707 | In every state of every run the next message of either link is handled without a double EOF, double close, data after EOF, nonexistent channel, unexpected answer or failed assertion, and both tables have a slot for a new channel |
| ChannelTheorems.FreeSlotIsSilent | newchannels.c:527-573 | When a slot is free, no message for it is in flight, and a channel that still names it has sent EOF and close, closed both sides and has nothing left to send |
| ChannelTheorems.MissingBitsAreInFlight | newchannels.c:548-573 | When the other end of an open channel is gone, whether its slot is free or was taken again, open or still opening, the EOF and close it has not received are exactly those still travelling to it, one at least, and no data follows an EOF |
| ChannelTheorems.QuietLinksMatchChannels | newchannels.c:322-331 | With both links empty the open channels are matched one to one with mirrored flags, and no pair has finished both directions without being freed |
| ChannelTheorems.WrittenIsPrefixOfRead | newchannels.c:781-802 | What was written to a socket is a prefix of what was read at the other end, in both directions, and equal where the output was closed on EOF with an empty buffer |
| ChannelTheorems.NoByteLost | newchannels.c:1143-1221 | While the receiving end's output is open, also while either end still waits for its confirmation, bytes read = written, then output buffer, then in flight, then input buffer, in this order |
| ChannelProgress.ConnectionEnds | newchannels.c:548-573 | From every state of every run in which both inputs of a connection are closed, and for every setting of both ends under which data moves (interactive, or a packet limit of at least 2), some continuation writes what was read at either end to the other where the output is still open, and frees both slots |
| ChannelProgress.LoneChannelEnds | newchannels.c:548-573 | A channel whose other end is gone is freed by delivering what is in flight |
| ChannelProgress.ContinuesRun | serverloop.c:675-749 | Such a continuation of a run is a run again |
| ChannelDelivery.OfferArrives | newchannels.c:1084-1115 | From every state of every run in which the input at one end of a connection and the output at the other are open, for every setting under which data moves and a quarter of a packet is at least one octet, and any octets that one read() takes: some continuation reads them and writes them at the other end, behind everything read before |
| ChannelDelivery.SendInput | newchannels.c:1128-1182 | Polls alone send the whole input of an open channel and leave it open |
| ChannelTheorems.RunMirror | newchannels.c:548-734 | Exchanging the two ends of a run gives a run, so every statement holds for either end |
| ChannelRuns.RunGood | serverloop.c:675-749 | The invariant of slots, links and bytes holds in every state of every run |
| ChannelRuns.ReceiveKeeps | newchannels.c:1188-1312 | Every message receipt keeps the invariant |
| ChannelRuns.SelectPassKeeps | serverloop.c:735-742 | A trip through prepare, select and after keeps the invariant, whatever the operating system answers |
| ChannelRuns.PollPassKeeps | newchannels.c:1128-1182 | A pass of output polls, stopped at any slot, keeps the invariant |
| ChannelSafety.FlowSend | newchannels.c:577-620 | The messages in flight continue from the sender's flags when it sends one more |
| ChannelSafety.FlowMonotone | newchannels.c:548-573 | What was received was sent, and a receiver with both flags has nothing left to receive |
| ChannelSafety.ReceiveUpdate | newchannels.c:677-707 | Taking the head of the link keeps both ends' views of the slot consistent |
| ChannelBytes.ReceiveBytes | newchannels.c:1188-1221 | Receiving data, EOF or close keeps the byte accounting of every connection |
| Channels.AllocateFindsSlot | newchannels.c:463-523 | The search for a slot ends at a free one, and growing keeps every slot where it was |
| Channels.NumUsedFull | newchannels.c:463-523 | The count of used slots equals the size of the table exactly when no slot is free |
| Channels.AfterSlotWellFormed | newchannels.c:921-1124 | Reading, writing or accepting on one slot keeps the count and the ownership of sockets |
| ChannelTables.ChannelTable.Allocate | newchannels.c:463-523 | In place, takes the first free slot, after moving to an array ten slots larger when needed, and touches no other |
| Channels.RequestReadsListener | newchannels.c:1045-1052 | The open request for a connection names the listener's path and port, whatever freed memory holds, if and only if the table had a slot left before |
| ChannelTables.ChannelTable.AcceptConnection | newchannels.c:1045-1054 | In place, a new opening channel and its request, read through the array from before: that array is still the table's if and only if a slot was left |
| ChannelTables.FullTable | newchannels.c:1045-1052 | Ten listeners on one address fill the first table, and the connection the first of them takes is requested for what freed memory holds |
| ChannelTables.ChannelTable.Release | newchannels.c:527-541 | In place, frees the slot with its buffers and counts it down |
| ChannelTables.ChannelTable.SendIeof | newchannels.c:577-599 | In place, sends EOF once, sets the flag and frees a finished channel |
| ChannelTables.ChannelTable.SendOclosed | newchannels.c:606-620 | In place, sends close once, sets the flag and frees a finished channel |
| ChannelTables.ChannelTable.CloseInput | newchannels.c:629-647 | In place, closes the input side, with EOF at once unless the channel is open |
| ChannelTables.ChannelTable.CloseOutput | newchannels.c:653-672 | In place, closes the output side, drops its buffer and sends close |
| ChannelTables.ChannelTable.ReceiveIeof | newchannels.c:677-692 | In place, the new table, the disconnect or the failed assertion that the value handler gives |
| ChannelTables.ChannelTable.ReceiveOclosed | newchannels.c:697-707 | In place, the new table, the disconnect or the failed assertion that the value handler gives |
| ChannelTables.ChannelTable.Receive | newchannels.c:1188-1312 | In place, dispatch of a message to its handler, with every error branch and the failed assertion |
| ChannelTables.ChannelTable.PrepareSelect | newchannels.c:762-916 | In place, the pass over all slots: a socket is to be read if and only if some slot holds it as a listener, or as an open channel whose input is open and shorter than half a packet, and to be written if and only if it is that of an open channel with an open output and something in it; drained outputs are closed |
| ChannelLaws.PreparePassWatch | newchannels.c:770-797 | The pass from any slot on adds exactly these sockets to the two sets |
| ChannelLaws.CloseInputLaw | newchannels.c:629-647 | Closing the input, with the EOF and the termination check it leads to, in closed form: flags, message, and the slot freed when all six flags are set |
| ChannelLaws.ReceiveIeofLaw | newchannels.c:677-692 | EOF for an open channel sets its flag, closes the input of an X11 connection only, sends nothing, is refused the second time and frees a finished channel |
| ChannelLaws.EarlyIeofLaw | newchannels.c:677-692 | EOF for a channel that is not open closes its output, too, with exactly the messages that were not sent before |
| ChannelLaws.EarlyIeofFails | newchannels.c:527-573 | There the assertion in channel_free fails if and only if all six flags come to be set and one of the two closes sets the last by its own message |
| ChannelLaws.ReceiveOclosedLaw | newchannels.c:697-707 | The other end's close drops what was to be sent and closes the input, is refused the second time, and fails the assertion if and only if the EOF it sends is the last flag |
| ChannelLaws.PollSends | newchannels.c:1145-1168 | A poll sends the first octets of the input, all of them or else 512 in an interactive session and the smaller of 8192 and half a packet otherwise |
| ChannelLaws.ReadTakes | newchannels.c:1084-1099 | At most 16384 octets and a quarter of a packet are read at a time, and no octet read closes the input |
| ChannelLaws.WriteTakes | newchannels.c:1101-1115 | write() takes a first part of the output, which is written and leaves the rest, and taking nothing closes the output |
| ChannelLaws.OpenLaw | newchannels.c:1080-1116 | An open channel is read and written only under watch, when the socket is ready and the call does not say it would block, and written only when there is output; a closed input ends its turn |
| ChannelLaws.AllocateLaw | newchannels.c:463-523 | The new channel takes the lowest free slot, of a table longer by ten if and only if no slot was free, with no flag set and empty buffers, and no other slot changes |
| ChannelLaws.AcceptLaw | newchannels.c:1654-1814 | An accepted request opens such a channel with the requester's number, and the answer carries both; a refused one is answered |
| ChannelLaws.ListenerLaw | newchannels.c:921-1078 | A listener under watch with a ready socket, and no other, takes the connection into an opening channel, marked for X11 if it is one, and requests its service |
| ChannelLaws.RefusedExactly | newchannels.c:1188-1312 | A message ends the connection if and only if it is for a free slot, an answer for a slot that is not opening, data behind EOF, or EOF or close for the second time |
| ChannelLaws.DataLaw | newchannels.c:1188-1221 | Data is appended to the output of an open channel, and dropped when the output is closed or the channel is not open |
| ChannelTables.ChannelTable.AfterSelect | newchannels.c:921-1124 | In place, the pass over all slots although accepting a connection can replace the array under it; a request filled in after that carries what the freed array holds |
| ChannelTables.ChannelTable.OutputPoll | newchannels.c:1128-1182 | In place, the pass that turns input buffers into data messages and then EOF |
| Numbers.Fermat | rsa.c:625-667 | Fermat's little theorem, from the binomial theorem |
| Numbers.ChineseUnique | rsa.c:652-659 | A number is determined modulo p * q by its remainders |
| Rsa.ModInverse | rsa.c:361-393 | Euclid's loop ends with the x in (0, n) for which a * x mod n = 1 |
| Rsa.EuclidStep | rsa.c:371-380 | Each turn keeps abs(v0) * g1 + abs(v1) * g0 = n, the alternating signs and both congruences |
| Rsa.FindExponent | rsa.c:439-449 | The search for e ends, at the first odd number above 2^ebits coprime to phi |
| Rsa.EvenExponentNeverFits | rsa.c:439-449 | An even e is never coprime to phi, so the search needs ebits > 0 |
| Rsa.DeriveKeys | rsa.c:399-470 | d inverts e modulo both p - 1 and q - 1 although it is computed modulo phi / gcd, and u inverts p modulo q |
| Rsa.RsaPrivate | rsa.c:625-667 | The CRT result lies below n and is input^d mod n if and only if the input is not a multiple of a prime whose reduced exponent is 0 |
| Rsa.ReducedExponentZero | rsa.c:636-650 | A key and an input that are such a case: the reduced exponent gives remainder 1 where the power has remainder 0 |
| Rsa.WrongPower | rsa.c:625-667 | Called with them, rsa_private does not return the power |
| Rsa.ExponentsInverse | rsa.c:625-674 | Raising to e and to d, in either order, gives back every m below n, also when m shares a factor with n |
| Rsa.DerivedReducesRightly | rsa.c:451-453 | A derived d is never a multiple of p - 1 |
| Rsa.KeyWorks | rsa.c:566-587 | The self-test of a generated key passes in both orders for every test value |
| PrimeSearch.StartShape | rsa.c:257-266 | With the bits set by mpz_ior the starting point is odd and between 3 * 2^(bits-2) and 2^bits |
| PrimeSearch.StartIs | rsa.c:224-266 | Between its two top bits and its lowest the starting point has the bits of the random octets |
| PrimeSearch.Reduce | rsa.c:301-302 | The counter keeps its residue, stays above -difference and ends as the remainder of the candidate |
| PrimeSearch.Sieve | rsa.c:297-307 | A candidate is passed over exactly when a table entry divides it, although a pass that stops early leaves counters behind |
| PrimeSearch.FirstAccepted | rsa.c:282-333 | The loop finds the first odd number from the start on that the sieve and both tests accept, or there is none within the limit |
| PrimeSearch.Attempt | rsa.c:257-352 | One draw gives the first accepted number if it is near and short enough, and otherwise fails |
| PrimeSearch.RandomPrime | rsa.c:245-356 | Draws are used up to the first that succeeds |
| PrimeSearch.SieveKeepsPrimes | rsa.c:268-280 | No prime is ever passed over by the sieve |
| PrimeSearch.SieveHasItsSay | rsa.c:268-280 | From 16 bits on no table entry divides what is given, and below the table makes no difference |
| PrimeSearch.GivesNextPrime | rsa.c:242-356 | With exact tests the result is precisely the first prime from the starting point on, if no more than 0x70000000 away and short enough |
| KeyGeneration.SecondPrime | rsa.c:508-552 | The pair is ordered, far enough apart, and both primes keep their lengths through swaps and retries |
| KeyGeneration.ModulusLength | rsa.c:260-263 | The modulus has exactly as many bits as the two primes together |
| KeyGeneration.GenerateKey | rsa.c:476-595 | Every key that comes out has matching exponents, the least public exponent above 2^5, a modulus of full length and primes that lie at least q / 1024 apart; none comes out only when the random source runs dry |
| KeyGeneration.Carries | rsaglue.c:219-294 | A generated key of 9 bits or more decrypts the encryption of every message that fits, for every nonzero padding |
| RsaPadding.Linearize | mpaux.c:45-63 | The loop over 32-bit limbs writes the base-256 digits, most significant first |
| RsaPadding.Unlinearize | mpaux.c:68-84 | The loop reads the number with these digits |
| RsaPadding.FromDigitsOf | mpaux.c:45-84 | Reading the digits of a number that fits gives the number |
| RsaPadding.RsaPublicEncrypt | rsaglue.c:219-248 | The digit loops build 00 02 PS 00 message and raise it to e, and an exponent below 3 is fatal |
| RsaPadding.RsaPrivateDecrypt | rsaglue.c:252-294 | For every input, with v the number that rsa_private computes: an error if and only if the octets of v that count do not begin with 0 and 2; otherwise v is the padded block of the result for some nonzero padding, or it has no zero octet behind the first two and is the result; v is input^d mod n when no reduced exponent fails |
| RsaPadding.UnpaddedAnswers | rsaglue.c:262-294 | The same for every number and length, as inequalities between the number and powers of 256 |
| RsaPadding.PrivateIsUnique | rsa.c:652-659 | The two remainders determine the number that is taken apart |
| RsaPadding.BlockBelowModulus | rsaglue.c:233-246 | The padded block is below every modulus of full length |
| RsaPadding.UnpadBlock | rsaglue.c:252-294 | Removing the padding from a block gives the message |
| RsaPadding.RoundTrip | rsaglue.c:219-294 | Decryption inverts encryption for every message of at most len - 3 octets and every nonzero padding |
| Packets.TakeFrame | packet.c:533-639 | A whole frame at the head of the input gives back type and data, leaves the rest of the input, and the receiving context equals the sending one |
| Packets.TakePart | packet.c:533-560 | Nothing is taken while a frame is incomplete, and nothing changes |
| PacketChecks.FrameLayout | packet.c:427-458 | A frame is the number of octets of type, data and check octets, high octet first, and the encryption of one to eight octets of padding, type, data and the CRC of all these; padding is zero without a cipher and random otherwise |
| PacketChecks.TakesExactly | packet.c:533-595 | For every receiver and any octets: nothing is taken before the frame has arrived; then it is taken if and only if no data is left over, the detector lets it pass and the decrypted octets end in the CRC of those before them, and each way to stop has its exact condition |
| PacketChecks.PollsExactly | packet.c:597-639 | A poll stops at disconnect, passes over ignore and debug with their string or stops when it is cut short, and returns any other packet |
| PacketChecks.CorruptedStops | packet.c:580-588 | A whole frame that passes the detector and lacks its CRC stops the reader with the checksum error |
| PacketChecks.AlteredIsRefused | packet.c:403-465 | A frame sent without a cipher or under Arcfour and altered within four consecutive octets behind the length field is, if the detector lets it pass, refused for its checksum if and only if the change is not the pattern 61 d8 f4 ee across the last two covered and first two check octets |
| PacketChecks.AlterationNotSeen | packet.c:439-443 | A frame of type 14 altered by that pattern and read as a packet of type 0xd6 |
| Packets.ShortIsUndetected | packet.c:294-326 | A frame of at most seven blocks is never taken for an attack |
| PacketRuns.ReadPollIs | packet.c:533-639 | On any prefix of what is in flight a poll takes as many hidden packets as have arrived and returns the first other one |
| PacketRuns.NeverStopped | packet.c:533-639 | In no run does the reader disconnect for length, checksum, attack, string or leftover data |
| PacketRuns.ReadIsPrefixOfSent | packet.c:403-465 | What was read is at every moment a prefix of the visible packets that were sent |
| PacketRuns.AllIsRead | packet.c:533-647 | When everything was delivered and a poll finds nothing, every visible packet was read and both contexts are equal |
| PacketRuns.KeysMeet | packet.c:332-357 | Each side sends with the context with which the other side receives, also when Arcfour halves the key; the runs change keys in this way |
| PacketRuns.KeyHalves | packet.c:332-357 | For Arcfour the client receives with the first half of the key and sends with the second, the server the other way round, and an odd octet is not used; other ciphers use the whole key both ways |
| PacketRuns.ItemsArrive | packet.c:373-465 | Items put into packets, sent, cut anywhere and polled are the items got, packet by packet, and all of them once everything was delivered |
| PacketStreams.PacketWriter.Send | packet.c:403-465 | Padding, checksum, length and encryption in the buffers append exactly the frame to output, empty the outgoing packet and advance the context; a packet of 255970 octets and more with its eight leading ones is refused |
| PacketStreams.PacketReader.ReadPoll | packet.c:533-639 | In the buffers, the outcome, the remaining input, the packet and the context are those of the value reader, and a whole frame without its CRC that passes the detector gives the checksum error |
| PacketStreams.PacketReader.ProcessIncoming | packet.c:644-647 | Appends a fragment to the input and changes nothing else |
| PacketStreams.PacketWriter.Put | packet.c:373-398 | Appends the encoding of one item to the outgoing packet |
| Buffers.Buffer.AppendSpace | buffer.c:78-111 | The restart loop ends after at most one compaction and one growth, with room at the end and the contents kept |
| Buffers.Buffer.Append | buffer.c:67-72 | The queue grows by the data |
| Buffers.Buffer.Get | buffer.c:122-128 | Takes the first octets off the queue, or fails when there are too few |
| Buffers.Buffer.Consume | buffer.c:132-137 | Drops octets at the front, or fails |
| Buffers.Buffer.ConsumeEnd | buffer.c:141-146 | Drops octets at the end, or fails |
| Memmove.Move | memmove.c:62-137 | For every overlap and alignment the destination equals the old source, and all other memory is unchanged |
| Bufaux.GetPut | bufaux.c:47-190 | Reading an integer, string, multiple-precision number or character gives what was written and leaves what follows |
| Bufaux.GetAllPutAll | bufaux.c:47-190 | The same for any sequence of items |
| Bufaux.PutIntLayout | bufaux.c:133-138 | A number is four octets, the highest first |
| Bufaux.StrLayout | bufaux.c:169-173 | A string follows the number of its octets |
| Bufaux.MpLayout | bufaux.c:47-87 | An integer is the number of its bits, which is exact, in two octets and its octets, the highest first, no more than the bits need |
| Bufaux.GetExactly | bufaux.c:92-190 | Reading fails if and only if octets are missing or a string is longer than 262144, and otherwise gives exactly what the octets say and leaves the rest |
| Bufaux.PutItem | bufaux.c:47-190 | On the buffer, writing appends the encoding, for multiple-precision numbers by way of their hex digits |
| Bufaux.GetItem | bufaux.c:92-190 | On the buffer, reading takes the item off, for multiple-precision numbers by way of a hex string, or fails when the buffer is too short |
| Bufaux.ConvertInPlace | bufaux.c:59-77 | The loop that turns hex digits into octets in the same array, with its odd first digit, never overwrites a digit it has still to read, and yields the base-256 digits of the number |
| Bufaux.HexSize | bufaux.c:49-79 | The octets written are as many as the assertion says: (hex digits + 1) / 2 = (bits + 7) / 8 |
| Bufaux.HexToOctets | bufaux.c:57-79 | For every number the loop yields the octets that are sent |
| Bufaux.HexValueIs | bufaux.c:106-115 | The number read from the hex string of the octets has the octets as its digits |
| Ciphers.DecryptInverse | cipher.c:263-355 | For all six kinds of context decryption gives back the text and leaves the context that encryption left |
| Ciphers.StaysInStep | cipher.c:263-355 | After every call of any sequence of calls the texts agree and the two contexts are equal |
| Ciphers.TripleIsSingle | des.c:567-587 | Triple DES with its first two keys and chains equal is single DES under the third |
| CipherContexts.CipherContext.constructor | cipher.c:182-259 | A new context holds the schedule computed from its padded key and zero vectors |
| CipherContexts.ParityBitsIgnored | cipher.c:215-244 | Keys for DES or triple DES that differ in the lowest bits of octets only give the same context |
| CipherLaws.CipherNumbers | cipher.c:182-259 | Which number is which cipher, which keys are refused, and which octets the key of each takes |
| CipherLaws.TripleKeys | cipher.c:225-240 | Triple DES takes octets 0-7, 8-15 and 16-23 as three keys for DES, and the first again as the third when there are no more than sixteen |
| CipherLaws.IdeaSubkeys | cipher.c:205-210 | IDEA takes the first sixteen octets, high octet first, as the number whose rotations are the subkeys |
| CipherContexts.CipherContext.EncryptBuffer | cipher.c:263-307 | In place, dispatch to the cipher of the context, which advances its vectors or stream |
| CipherContexts.CipherContext.DecryptBuffer | cipher.c:311-355 | In place, the inverse dispatch |
| Modes.CbcDecrypts | des.c:513-565 | CBC decryption with an inverse block function gives back the text and the same chain value |
| Modes.CfbDecrypts | idea.c:145-252 | CFB decryption with the same block function gives back the text and the same chain value |
| CipherLaws.BlockOctets | getput.h:38-80 | A block is two words, low octet first for DES and Blowfish and high octet first for IDEA, and is written as it is read |
| CipherLaws.CbcLaw | des.c:513-537 | Block i of the result is the cipher of block i of the text combined with block i - 1 of the result or the vector, and the last one is the next vector |
| CipherLaws.CbcBackLaw | des.c:539-565 | Block i of the text is the inverse cipher of block i, combined with block i - 1 of the ciphertext or the vector, and the last block of ciphertext is the next vector |
| CipherLaws.CfbLaw | idea.c:145-163 | Block i of the result is block i of the text combined with the cipher of block i - 1 of the result or the vector |
| CipherLaws.TripleLaw | des.c:567-576 | Triple DES is CBC under the first key, then CBC decryption under the second, then CBC under the third, block by block, each with its own vector |
| CipherLaws.ContextLaw | cipher.c:263-307 | Encryption in a context is, block by block, CFB with IDEA, CBC with DES or Blowfish, the triple form or the stream, and moves the vectors of that context only |
| CipherLaws.BlockFunctions | idea.c:101-138 | The block functions are the transforms in the direction of encryption |
| Des.PermOpInverse | des.c:372-374 | Each masked exchange of bits of IP and FP undoes itself |
| Des.PermutationsInverse | des.c:376-388 | FP undoes IP and IP undoes FP, on swapped halves as the rounds use them |
| DesRounds.InitialPermutation | des.c:376-381 | IP takes the odd-numbered bits of all octets to one half and the even-numbered to the other, in the order of the standard |
| DesRounds.MixIsRoundFunction | des.c:390-401 | In a round box k gets bits 4k to 4k + 5 of the half, cyclically, combined with the same bits of the first subkey word for even boxes and the second for odd ones, by an explicit table of bit numbers |
| DesRounds.SixteenRounds | des.c:406-450 | Encryption is the sixteen rounds of the standard between the two permutations: each half is the one before the last combined with the round function of the last, and the result holds the last two |
| Des.TransformInverse | des.c:406-450 | The rounds run backwards undo the rounds run forwards, for every key schedule and every S-box |
| DesKeys.HalvesAreColumns | des.c:466-480 | The masked exchanges are permuted choice 1 of the standard: both halves are columns of the key's bits |
| DesKeys.ParityIgnored | des.c:458-480 | Two keys give the same halves if and only if they differ at most in parity bits |
| DesKeys.FullCircle | des.c:482-492 | The sixteen turns by one or two places bring both halves back to where they started |
| DesRounds.HalvesTurn | des.c:482-492 | Before round i both halves of the key have been turned down by the sums of the shifts of the standard, 1, 2, 4, 6 up to 28 |
| DesRounds.SubkeyBits | des.c:497-505 | Which bits of the two halves select in the eight tables, by number; four of each half never do |
| DesRounds.BoxKeys | des.c:508-511 | The two words of a round hold what the tables gave so that the boxes 0, 2, 1, 3 get the octets of the one half's word and 4, 6, 5, 7 those of the other's |
| DesKeys.SetKey | des.c:458-511 | The loop over the turning halves fills the schedule |
| Des.Encrypt | des.c:406-450 | The loop over double rounds computes the transform, which `DesRounds.SixteenRounds` ties to the standard |
| DesCbc.CbcEncryptBuffer | des.c:513-537 | The loop over blocks in place is CBC, with the vector written back |
| DesCbc.CbcDecryptBuffer | des.c:539-565 | The loop over blocks in place is CBC decryption, with the vector written back |
| DesCbc.TripleDecrypts | des.c:567-587 | Inner-CBC triple decryption gives back the text and leaves the three chain values of encryption |
| DesCbc.TripleEncryptBuffer | des.c:567-576 | Three passes, two of them inside the destination, are the three layers |
| DesCbc.TripleDecryptBuffer | des.c:578-587 | The three inverse passes in reversed order |
| Blowfish.EncipherInverse | blowfish.c:311-365 | The unrolled rounds with reversed subkeys undo each other, for every P and S |
| CipherLaws.BlowfishF | blowfish.c:304-305 | F adds the entries of the first two boxes, combines the third and adds the fourth, the boxes taking the octets of the word from the highest on |
| CipherLaws.BlowfishRounds | blowfish.c:311-337 | The unrolled rounds are the sixteen rounds of the description with the last exchange undone and the last two subkeys combined |
| BlowfishKeys.SameMixture | blowfish.c:463-473 | Two keys are mixed into the P array alike if and only if, read around and around, they agree in 72 octets |
| BlowfishKeys.TwiceTheKey | blowfish.c:438-498 | A key written twice has the same schedule |
| CipherLaws.BlowfishMixture | blowfish.c:454-474 | The subkeys start combined with the next four octets of the key, high octet first, read around and around |
| CipherLaws.BlowfishPairs | blowfish.c:476-503 | Pair k of the row of subkeys and boxes becomes the cipher of the pair before it under what there is by then, and nothing else changes |
| BlowfishKeys.SetKey | blowfish.c:438-498 | In place, P and then S are replaced pair by pair with what the cipher makes of its last output |
| Blowfish.CbcEncryptBuffer | blowfish.c:381-404 | The loop over blocks in place is CBC, with the vector written back |
| Blowfish.CbcDecryptBuffer | blowfish.c:409-434 | The loop over blocks in place is CBC decryption, with the vector written back |
| Idea.Fermat4IsPrime | idea.c:85-97 | 65537 is a prime |
| Idea.MulopIsProduct | idea.c:85-97 | The low 16 bits of mulop are the product modulo 65537 with 0 standing for 65536, for all pairs |
| Idea.TransformIsIdea | idea.c:101-138 | The transform on unmasked 32-bit words is the cipher on 16-bit halves |
| IdeaCfb.SetKey | idea.c:48-70 | The loop fills the 52 subkeys of the schedule |
| IdeaCfb.SubkeysRotate | idea.c:48-70 | Subkey i is word i mod 8 of the 128-bit key rotated left by 25 bits i div 8 times |
| IdeaCfb.RunTransform | idea.c:101-138 | The loop over the rounds computes the transform |
| IdeaCfb.CfbEncryptBuffer | idea.c:145-194 | For every length, the loop over blocks in place writes that many octets of CFB over the input up to the end of its last block and nothing behind them, with the vector written back |
| IdeaCfb.CfbDecryptBuffer | idea.c:201-252 | The same for CFB decryption |
| Modes.StorePart | idea.c:162-187 | The cases of the switch, falling through, store the first octets of the last block in order |
| Modes.CfbEncryptPrefix | idea.c:140-194 | The octets given for a text of any length do not depend on what stands behind it |
| Modes.CfbAnyLength | idea.c:140-203 | A text of any length comes back, whatever stands behind it at either end |
| Arcfour.EncryptTwice | arcfour.c:74-86 | Encrypting twice from the same context gives the text back and the same context |
| CipherLaws.ArcfourStep | arcfour.c:55-72 | A step moves x by one and y by the entry at x, exchanges the two entries and gives the entry at their sum |
| CipherLaws.ArcfourLaw | arcfour.c:74-80 | Octet i of the result is octet i of the text combined with the key octet of step i + 1, and the context is the one after all steps |
| CipherLaws.ArcfourSchedule | arcfour.c:25-53 | Turn n of the schedule exchanges entry n with the one reached by going on by the entry and octet n of the repeated key, from the identity and zero |
| Arcfour.AdvanceInverse | arcfour.c:55-72 | Each step of the generator can be taken back, and the other way round |
| Arcfour.ScheduledIsPermutation | arcfour.c:25-53 | The table is a permutation after every step of the key schedule |
| Arcfour.EncryptKeepsPermutation | arcfour.c:55-80 | The table stays a permutation through every call |
| Arcfour.ArcfourContext.constructor | arcfour.c:25-53 | The loop with its wrapping key index builds the table of the key |
| Arcfour.ArcfourContext.EncryptBuffer | arcfour.c:74-80 | In place, the text is combined with the stream and the context advances |
| Crc32.TableIsShift | crc32.c:59-112 | All 256 table entries are eight shift and xor steps of 0xedb88320 |
| Crc32.TableDrivenIsBitwise | crc32.c:116-129 | The table-driven CRC is the bitwise one, for every start value and message |
| Crc32.Crc32 | crc32.c:116-129 | The loop computes the bitwise CRC of the message |
| Crc32.CrcLinear | crc32.c:116-129 | The CRC of the xor of two messages of one length is the xor of their CRCs |
| CrcBursts.BurstSeal | crc32.c:116-129 | Octets that end in their CRC, high octet first, do so after a change within four consecutive octets if and only if the change is nothing or that pattern in that place |
| BlockCrc.UpdateIsCrc | deattack.c:34-38 | crc_update continues the CRC over the four octets of its second argument |
| BlockCrc.FoldIsCrc | deattack.c:34-71 | Folding crc_update over words is the CRC of their concatenation |
| BlockCrc.IndicatorOctets | deattack.c:46-71 | The message of a block has eight octets for each indicator, 1 and seven zeros where it is set and zeros otherwise |
| BlockCrc.FewFlagsNeverCancel | deattack.c:46-71 | With at most eight indicators, one of them set, the CRC is never zero |
| Deattack.CheckCrc | deattack.c:46-71 | The fold over the blocks decides whether the CRC of the indicator message is zero |
| Deattack.ShortNeverAttack | deattack.c:109-132 | A packet of at most seven blocks is never an attack, with or without a vector |
| Deattack.Detector.Compare | deattack.c:109-132 | The short-packet path agrees with the quadratic definition although its break leaves the wrong loop |
| Deattack.MaskIsModulo | deattack.c:137-144 | Masking a hash or an index with n - 1 is reduction modulo n for every size the table can have |
| Deattack.Detector.Lookup | deattack.c:143-162 | Every probe ends at a free cell or at an equal entry, and no equal entry lies elsewhere |
| Deattack.Detector.DetectAttack | deattack.c:79-167 | Over any number of calls with a growing table, detected if and only if some block equal to the vector or an earlier block passes check_crc |
| Md5.FastFunctions | md5.c:133-139 | The optimised functions are F, G, H and I of section 3.4 of RFC 1321 |
| Md5.Transform | md5.c:150-235 | The 64 lines with rotating registers are the 64 steps with computed word, constant and shift, added to the old registers |
| Md5.CounterAdds | md5.c:48-53 | The two words with their carry count 8 * length modulo 2^64 |
| Md5.CounterOctets | md5.c:119-121 | Written out, they are the 64-bit length, low word first |
| Md5.Context.Update | md5.c:44-84 | A context that holds m holds m + data afterwards, whatever waited in it |
| Md5.Context.Final | md5.c:90-129 | The digest is the fold over the padded message of sections 3.1 to 3.5 of RFC 1321 |
| Md5.WrittenOctets | md5.c:29-36 | A digest is written low octet first, and the registers start with the values of section 3.3 of RFC 1321 |
| Md5.DigestOf | md5.c:29-129 | Cutting a message into updates in any way gives the digest of the whole |
| Random.Recurrence | random.c:353-369 | Behind the window o[n] = o[n-7] + o[n-3], o[n-15] + o[n-1], o[n-31] + o[n-3] and o[n-63] + o[n-1], modulo 2^32, for the types 1 to 4 |
| Random.StepsAreWords | random.c:353-369 | After n calls the generator holds the last words of that sequence |
| Random.DrawnRecurrence | random.c:353-369 | The numbers drawn satisfy the recurrence themselves modulo 2^31, up to a carry of one |
| Random.WindowSlides | random.c:353-369 | One call in the circular table is one step of the sequence |
| Random.State.Next | random.c:353-369 | In place, one step of the generator: type 0 draws the linear congruence modulo 2^31; the others draw the sum modulo 2^32 of the words at the two pointers without its lowest bit, and the pointers stay 3, 1, 3 and 1 places apart round tables of 7, 15, 31 and 63 words |
| Random.State.Draws | random.c:353-369 | n calls on the table return the words behind the window without their lowest bit, or the linear congruence modulo 2^31 for type 0; between the values of types 1 to 4 the recurrences hold with the numbers 7 and 3, 15 and 1, 31 and 3, 63 and 1, up to a carry; the rear pointer moves by n modulo deg |
| Random.State.Seed | random.c:198-215 | Filling and the 10 * deg discarded draws leave the generator of the seed |
| Random.SeedsLaw | random.c:204-209 | The table starts with the seed, and each word is 1103515245 times the one before plus 12345, modulo 2^32 |
| Random.SeededIs | random.c:198-215 | The generator of a seed is the table from place 3, 1, 3 or 1 on, after 70, 150, 310 or 630 steps, for the types 1 to 4 |
| Random.State.SwitchAndReturn | random.c:300-333 | Switching to another array, drawing from it and switching back leaves the generator as it was, and the other one n draws on |
| Random.State.InitState | random.c:237-282 | The old generator is saved in its array; an array of fewer than 8 octets is refused, and one of fewer than 32, 64, 128, 256 or more is seeded as type 0, 1, 2, 3 or 4, with 5 times the rear pointer plus the type stored in front |
| Random.State.SetState | random.c:300-333 | With another array, the old generator is saved in its own array and the stored one goes on unchanged; with the current array, the position saved last is gone back to |
| Random.SameStateExactly | random.c:294-333 | With the current array, whose position was saved n draws ago, the generator is left as it is if and only if it is the linear one or the table repeats itself n places on; a whole number of rounds is such an n |
| Random.State.SetStateAfterDraws | random.c:294-333 | The same for a State that saves, draws n numbers and calls setstate |
| Random.SameStateRewinds | random.c:294-333 | A State on which one draw and setstate with its own array give another generator than the draw alone |
| Match.MatchPattern | match.c:58-112 | The loops with their recursion decide the acceptance relation |
| Match.AcceptsIsDecided | match.c:58-112 | A string is accepted just when the pattern, with two or more stars at its end read as one character or more, denotes it |
| Match.AcceptsIsSound | match.c:58-112 | Only strings the pattern denotes are accepted |
| Match.MeaningIsDecided | match.c:58-112 | Acceptance and meaning agree on all strings if and only if the pattern does not end in two stars |
| Hostfile.MatchHost | match.c:117-141 | The address is compared if and only if there is one and the pattern has only digits, dots, question marks and stars, otherwise the name |
| Hostfile.MatchHostname | hostfile.c:137-185 | Holds exactly when no subpattern is too long, no negated one matches and some other one does |
| Hostfile.ListIsRead | hostfile.c:147-170 | A subpattern reaches to the next comma, a mark in front negates it, and capital letters are read as small ones |
| Hostfile.PlainListMeansUnion | hostfile.c:137-185 | A list without negation denotes the union of its subpatterns |
| KnownHosts.ReadKey | hostfile.c:99-130 | The loops over the line read bits, e and n, or fail, and skip the blanks around them |
| KnownHosts.KnownHostsFile.Check | hostfile.c:193-281 | OK if some line of the host has the key, otherwise CHANGED if some line of the host has another, otherwise NEW |
| HostLines.LineIsRead | hostfile.c:231-272 | A line of any blanks, names, and three decimal numbers behind blanks says whether the key, with the bits modulo 2^32, is that of a host the names match |
| HostLines.OnlySuchLines | hostfile.c:231-272 | A line that says something begins with such a line, up to a NUL |
| HostLines.NothingSaid | hostfile.c:235-241 | Empty lines and comments behind any blanks say nothing |
| HostLines.DecimalDigits | hostfile.c:55-91 | A number is read to the base ten, the highest digit first |
| HostLines.LineLength | hostfile.c:199-231 | A line ends behind its newline, or after 16383 characters, and the next one follows |
| KnownHosts.KnownHostsFile.Add | hostfile.c:287-319 | Appends exactly one entry, or nothing when the file cannot be opened |
| HostLines.EntryLaw | hostfile.c:287-319 | The entry is the host, of which no more than 500 characters, and bits, e and n in decimal, one blank between and a newline behind |
| KnownHosts.EntrySays | hostfile.c:193-319 | The scan reads from an entry its host, matched by that host alone, and its key |
| KnownHosts.AddedIsKnown | hostfile.c:193-319 | For every file and plain host: the host just added is OK with its key if and only if a finished line gave that answer already or the pending line gives it with the entry behind it, which `Joined` spells out when both fit into the line buffer and the pieces of the line do otherwise; it does when nothing was pending and the entry fits |
| KnownHosts.AddedElsewhere | hostfile.c:193-319 | For every file, added plain host, and any host and key: the answer stays the same if and only if a finished line gives OK, or the pending line gives the same answer with the entry as without it, or neither is better than what the finished lines say |
| KnownHosts.AddedToFinished | hostfile.c:193-319 | Behind a file without a pending line the added host gets its key, and the answer for every other host is unchanged |
| KnownHosts.AnswerAppended | hostfile.c:215-281 | For any file and any text appended, the answer is the better of what the finished lines and the continued pending line give |
| KnownHosts.JoinedSays | hostfile.c:215-270 | What a pending line says with an entry behind it: cut off by a NUL or #, unchanged behind blanks, a longer name list, or numbers that run on |
| KnownHosts.UnfinishedNameHides | hostfile.c:193-319 | Behind an unfinished plain name the added host is found only if a finished line has it already |
| KnownHosts.UnfinishedNumberChanges | hostfile.c:193-319 | A concrete file in which adding one host turns the answer for another from OK to CHANGED |
| KnownHosts.FileAnswers | hostfile.c:193-319 | After any additions the answer is OK for a pair that was added, CHANGED for a host added with other keys only, NEW otherwise |
| KnownHosts.UnfinishedLineHides | hostfile.c:193-319 | A concrete file without a final newline in which the host just added is not found |

## Left out

- Old-channel emulation (newchannels.c:1258-1272 with `EMULATE_OLD_CHANNEL_CODE` on) and the X11_OPEN state, in which a nested close can free a channel before its last check.
- Listening sockets as such: a listener only accepts for its port, for X11 or for the agent; closing listeners, forwarding requests, agent sockets and X11 authentication spoofing are not modelled.
- Channel and socket numbers are unbounded: the 32-bit fields of the messages do not wrap. A socket number is never used again; the operating system would reuse it.
- ChannelTables.ChannelTable.AfterSelect: the slots are values in an array that really grows, with their buffers as sequences; that the source's buffers are the queues of `Buffers` is proved there, not inside the slots. What freed memory holds is an arbitrary answer of each turn. The originator's name in requests and remote names are not modelled.
- `read` and `write` answer arbitrarily: a prefix of any bytes, would block, EOF or error.
- The permission check and the connection behind an open request are one arbitrary answer.
- PacketStreams.PacketWriter.Send: the limit is the default of `max_packet_size`; changing it (packet.c:893-896) is not modelled. The channel layer has the limit as a parameter.
- Compression, and with it the compressed branches of packet.c; DISCONNECT packets end a run of the packet layer and are not sent in it; their text is not read.
- PacketRuns.NeverStopped: assumes, of every frame sent, that the attack detector finds no attack in it, which for frames longer than seven blocks depends on the ciphertext.
- PacketRuns.AllIsRead: one direction of a connection; a new key is set when nothing is in flight.
- The packet methods encrypt and decrypt copies of slices of their buffers instead of pointers into them.
- Buffer sizes are unbounded numbers: `alloc + len + 4096` does not wrap at 32 bits.
- Reading a number of no octets (`buffer_get_mp_int` with zero bits) takes the value 0.
- Multiple-precision numbers are mathematical integers; limbs, sizes and the library's own algorithms are not modelled. `mpz_powm` is the power modulo m.
- `mpz_probab_prime_p` is an arbitrary predicate. KeyGeneration.GenerateKey assumes that what it lets pass is prime.
- PrimeSearch.GivesNextPrime: assumes a predicate that is exactly primality, to say what the search itself contributes.
- The table of small primes is a parameter: any numbers above 1 of at most 15 bits. That the source's entries are primes is not stated.
- The random source is the sequence of octets each request receives; a search over a finite sequence can run dry, where the program would go on reading.
- RSAREF branches, and keys shorter than 9 bits for the padded operations, whose array index would be out of range.
- The DES selection and S-box tables and Blowfish's first boxes are arbitrary tables of their sizes; their constants are not compared with a standard.
- Blowfish keys of 2^15 octets and more, whose length does not fit the source's `short`; an empty key, which divides by zero, counts as a stop of the program.
- `word32` is exactly 32 bits wide, also where the source's type could be wider; `crc_update` reads words in little-endian order; `long` in random.c has 32 bits.
- CFB on other lengths than multiples of 8 is proved for idea.c itself; a cipher context takes whole blocks only, as the packet layer gives it and as the other block ciphers assert.
- The contents of the detector's table between calls and its zero-length reallocation.
- Md5.Context.Final: does not model the clearing of the context at the end, which covers only as many octets as a pointer has.
- Md5.Transform: addition modulo 2^32 is written in one fixed order on both sides, so its associativity is not used.
- KnownHosts.AddedIsKnown: for a line that is longer than the line buffer together with the entry, the answer is that of its pieces, and what each piece says is not spelled out as in `KnownHosts.JoinedSays`.
- KnownHosts.EntrySays: plain hosts have no blanks, commas, wildcards, capitals or NUL, do not begin with `#` or `!`, and are at most 500 characters long; the entry fits into the line buffer.
- File permissions, user ids and debug messages in hostfile.c; logging everywhere.
- `strtok`-like reuse of the line while a number is parsed (a NUL is written behind it and taken back).
- Arcfour.ArcfourContext.constructor: requires a key of at least one octet, as the source's modulo does implicitly.
- Client and server loops beyond their step order, authentication, configuration, terminals and file transfer.
