# OSCam peer protocols in Dafny

OSCam shares and caches smart-card answers between servers. This project models the parts of
it that two or more peers have to agree on, or that keep state over many requests, in the build
`oscam/config.h` selects (cache exchange and the cycle check on, AIO extensions off), and proves
what they keep. `dafny verify dfyconfig.toml` verifies everything.

| modules | what they model |
|---|---|
| `Bytes` | bytes, words, XOR, shifts, duplicate-free lists |
| `CcCrypt`, `CcKeystream`, `CwMask`, `CcFrames` | the CCcam stream cipher and what its key schedule and keystream compute, the control-word mask, framing |
| `CcHandshake`, `CcSession`, `CcSessionRuns`, `CcEndpoint` | login, one client and one server over two byte streams, what every run keeps, and one end as an object |
| `GboxCipher`, `GboxBuffer` | the gbox buffer cipher: specification and in-place code |
| `KeyWindow`, `Cryptoworks`, `CryptoworksBits`, `CryptoworksBuffers` | the Cryptoworks Feistel cipher, its 28-bit rotations in 32-bit windows, and what a round computes bit by bit |
| `Cards`, `CardWire`, `CardBuffers` | shared cards and their wire format |
| `CardList`, `ServerList` | minimising a server's card list in the three modes |
| `ShareList`, `ShareRuns`, `ShareServer` | the difference between two share lists, share ids, and what a client has been told |
| `CardNetwork`, `CardSpread`, `CardReader` | cards spreading through a network of servers |
| `CycleCheck`, `CycleRuns`, `CycleSteady`, `CycleChecker` | the control-word cycle checker, what every run keeps, and what it learns and accepts |
| `PushWire`, `PushBuffers`, `Gossip` | cache-push messages in both framings, and pushes spreading through a network |
| `HitCache` | the time-windowed hit cache |

## How it is modelled

- Code that computes is a function. Code that changes buffers, lists or counters is a method or
  a class with the source's loops, proved equal to such a function; the theorems are about the
  functions, over all inputs or over all runs. The names in the source are in the comments.
- Bytes are integers below 256 and wrap around explicitly; so do 16-bit and 32-bit counters
  and conversions to `int8_t`.
- Clocks, filters by group, caid, ident or service, configuration, and SHA-1 are parameters.
  Allocation succeeds. Each message handler and each update is one atomic step.
- Linked lists are sequences. The 32 lists by caid of the share list are one list, because cards
  that match have equal caids. Bit sets of groups are sets.
- `write_card` and the push writer fill an array through a moving offset, as the source does.
- The cycle checker's state also records every stored request of a channel. The source has no
  such record; the 15-slot ring is compared with it.
- In the networks, messages may get lost, be repeated and overtake each other, and any node may
  be connected to any other. That is more than a TCP connection does, so what is proved there
  does not rest on order.

## Where the code does less than one would expect

- A card removal (or new server data) that overtakes an answer drops the client's pending
  request, and the client then closes the connection when the answer arrives:
  `CcSessionRuns.ClientHearsNext` says when, `CcSessionRuns.WithdrawnCardLosesItsAnswer` gives a run.
- CCcam shortens names to 20 bytes, and the login goes on to further accounts of the same name;
  but it decrypts in place what the attempt before has left, so only the first account of a name
  is sure to accept its password: `CcHandshake.RetryExactlyWhen`, `CcHandshake.SafeExactlyWhenFirst`.
- `equal_providers` compares lists, not sets (`CardList.EqualProvidersNeedsDistinct`), and a message
  can bring repeated providers (`CardWire.BetacryptRepeats`). MINIMIZE_HOPS lists every class once
  exactly if no card repeats a provider: `CardList.EqualProvidersExactlyWhen`,
  `CardList.HopsListsOnceExactlyWhen`, `CardList.OfferedTwice`, `CardList.OrderMattersForRepetitions`.
- Under MINIMIZE_HOPS the groups of a card that is replaced by a nearer one are lost:
  `CardList.HopsKeepsGroupsOfTheNearest`.
- Merging by caid forgets the nodes cards came through, and a node can get back a card it made:
  `CardSpread.MergingForgetsTheWay` is such a run. Nodes survive exactly where nothing is merged:
  `CardList.EntryKeepsNodesExactlyWhen`, `CardList.CaidKeepsNodesExactlyWhen`.
- The removal of a card is announced only to clients the card, as last reported, is still valid
  for. `ShareRuns.UpToDateAlongExactlyWhen` says along which runs a client is always told;
  `ShareRuns.HopLimitLeavesStaleIds` gives a run on which the filter of the code keeps a share id
  that names nothing.
- A card made from a user service is sent with the account's reshare whatever its own, and an
  account may ignore the reshare: `CardSpread.BudgetKeptExactlyWhen`, `CardSpread.UserServiceOverspends`.
- A cycle time of 128 or more does not survive a cache push: `PushWire.CycleExactlyWhen`.
- The hit cache keeps groups for less than the maximum, not up to and including it:
  `HitCache.FoundExactlyWhenYounger`.
- The cycle checker's clean-up cuts its list, which is the same as removing old entries only
  while the list is ordered by time: `CycleRuns.CutIsFilterExactlyWhen`.

## Model

| member | source | states |
|---|---|---|
| `CcCrypt.CryptConcat` | oscam/module-cccam.c:87-109 | crypting a message in two pieces gives the same bytes and the same block as crypting it in one |
| `CcCrypt.KeystreamIgnoresData` | oscam/module-cccam.c:87-109 | where the keystream stands depends on how many bytes were crypted, not on the bytes, the mode or `state` |
| `CcCrypt.DecryptUndoesEncrypt` | oscam/module-cccam.c:87-109 | decrypting with an equal block gives the plain bytes back and leaves the two blocks equal |
| `CcCrypt.EncryptUndoesDecrypt` | oscam/module-cccam.c:87-109 | encrypting gives back what was decrypted, so a block decrypts no two messages to the same bytes |
| `CcCrypt.DecryptHeals` | oscam/module-cccam.c:87-109 | a receiver with the right keystream and any other `state` gets the first byte wrong by the difference, everything after it right, and then holds the sender's `state` |
| `CcCrypt.EncryptState` | oscam/module-cccam.c:87-109 | encrypting folds every plain byte, and nothing else, into `state` |
| `CcCrypt.CryptBlock.Init` | oscam/module-cccam.c:66-85 | the key schedule loop leaves the block that the specification derives from the key, with `state` the first key byte and both counters 0; CcKeystream says what that is |
| `CcKeystream.ScheduleRearranges` | oscam/module-cccam.c:66-85 | after every round of the key schedule the table is a rearrangement of 0..255 |
| `CcKeystream.RoundGivesKeyAway` | oscam/module-cccam.c:76-80 | a round exchanges the entries at its number and at the new index and no others, and its key byte is what the index has grown by besides the old entry |
| `CcKeystream.SameTablesExactlyWhen` | oscam/module-cccam.c:66-85 | two keys of one length, at most 256, lead to the same tables after every round if and only if they are the same |
| `CcKeystream.CryptRearranges` | oscam/module-cccam.c:87-109 | crypting keeps the table a rearrangement of what it was |
| `CcKeystream.TurnsUndo` | oscam/module-cccam.c:94-96 | the generator can be run backwards, so no two states lead to the same one |
| `CcKeystream.KeyByteTellsIndices` | oscam/module-cccam.c:94-99 | the key byte is the same for exchanged indices and different for any two values of one of them |
| `CcKeystream.FirstKeyBytes` | oscam/module-cccam.c:87-109 | from the untouched table the keystream begins with 2, 5, 7 |
| `CcKeystream.EncryptedIs` | oscam/module-cccam.c:87-109 | every byte sent is the plain byte, the keystream byte of its place, the first `state` and all plain bytes before it, combined by exclusive or |
| `CcCrypt.CryptBlock.CryptRange` | oscam/module-cccam.c:87-109 | the in-place loop crypts exactly the given range of a buffer and advances the block as specified |
| `CwMask.UnmaskUndoesMask` | oscam/module-cccam.c:150-205 | masking a control word twice with the same node and card gives it back: the client's step undoes the server's |
| `CwMask.MaskShiftsState` | oscam/module-cccam.c:150-205 | masking changes what a whole word adds to `state` by a byte that depends only on node and card |
| `CwMask.MaskBit` | oscam/module-cccam.c:150-205 | the mask bit by bit: at position i the node id, read as a number, is moved by 4 * i bits and the card id by 2 * i, and every second byte is complemented |
| `CwMask.MaskSpells` | oscam/module-cccam.c:150-205 | a zero node leaves the card id at positions 0, 4, 8 and 12, lowest byte first; a zero card leaves the node id at the even positions, last byte first |
| `CwMask.CwCryptInPlace` | oscam/module-cccam.c:150-205 | the loop over nibbles of the node id masks the 16 bytes at an offset and leaves the rest of the buffer alone |
| `CcFrames.FrameArrives` | oscam/module-cccam.c:785-876 | a frame encrypted as one piece and decrypted as header and body arrives with command, length and payload unchanged, whatever `state` the receiver had, and both blocks are equal afterwards; a frame over the limit is reported |
| `CcFrames.FrameArrivesExactlyWhenItFits` | oscam/module-cccam.c:785-955 | for every payload: it comes through if and only if it fits the receiver's buffer and the two length bytes |
| `CcFrames.FrameSays` | oscam/module-cccam.c:887-955 | a frame says flag, command, the length with its higher byte first, and the payload |
| `CcSessionRuns.LinkedReceive` | oscam/module-cccam.c:785-955 | the head of a stream whose ends are linked decodes to the next message said, and the link holds for the rest once the receiver has made its own extra step |
| `CcSessionRuns.ExtraStepsAgree` | oscam/module-cccam.c:3598-3610 | the extra 16-byte steps of sender (masked word) and receiver (plain word) leave equal keystreams and `state` bytes that differ by the mask's contribution |
| `CcSessionRuns.SessionStaysInStep` | oscam/module-cccam.c:785-955 | over every interleaving of sends, requests, answers, refusals and deliveries in normal mode: each end has heard message for message what the other said, control words recovered, flags off only right after an answer; the paired blocks agree once all is heard; an end closes only at a frame that does not fit, at one that tells it to (0x0e; for the client also server data of 35 bytes) or, the client, at an answer to a request it has dropped |
| `CcSessionRuns.UnheardMessagesCanBeReceived` | oscam/module-cccam.c:785-876 | progress: an open end can receive exactly when something said to it is still unheard |
| `CcSessionRuns.ClientHearsNext` | oscam/module-cccam.c:3431-3615 | on the next message that fits, the client closes for want of a request exactly when it is an answer and the request has been dropped, gives up exactly when the frame tells it to, and hears everything else; its request goes exactly with a frame that withdraws its card |
| `CcSessionRuns.RepliesFreeTheClient` | oscam/module-cccam.c:3431-3615 | an answer to a request the client still has, and every refusal, leaves the client free to ask; notes leave it as busy as it was |
| `CcSessionRuns.RequestExactlyWhen` | oscam/module-cccam.c:3433-3463 | what a client asks for is taken as a request if and only if its ECM has 1 to 1023 bytes, and the share id is found in it |
| `CcSessionRuns.WithdrawnExactlyWhen` | oscam/module-cccam.c:2606-2666 | a card is withdrawn by a removal that begins with its share id and by server data of 72 bytes, and by nothing else |
| `CcSessionRuns.RefusalExactlyWhen` | oscam/module-cccam.c:3117-3145 | refusals are 0xfe and 0xff with one byte at most and 0x80 with exactly one |
| `CcSessionRuns.NumbersDiffer` | oscam/module-cccam.c:3455-3463 | requests taken one after the other have different numbers |
| `CcSessionRuns.WithdrawnCardLosesItsAnswer` | oscam/module-cccam.c:674-703 | from every completed handshake there is a run in which a card removal overtakes the answer and the client closes |
| `CcHandshake.LoginIsRecognised` | oscam/module-cccam.c:4324-4441 | the server reads the name and "CCcam" and welcomes the client if the first account of that 20-byte name has its password, with its decrypting block equal to the client's encrypting one; each refusal has the right reason, and only accounts of that name are ever accepted |
| `CcHandshake.RetryExactlyWhen` | oscam/module-cccam.c:4401-4444 | any account of the name with the client's password: it is accepted if and only if no earlier one was and the attempts before have left the six bytes as received |
| `CcHandshake.SafeExactlyWhenFirst` | oscam/module-cccam.c:4401-4444 | an account accepts its password whatever passwords the accounts before it have, if and only if it is the first of its name: the attempts decrypt in place what the attempt before has left |
| `CcHandshake.SameSeedExactlyWhen` | oscam/module-cccam.c:134-148 | two seeds are the same to cc_xor if and only if their lower halves are |
| `CcHandshake.CcXorByte` | oscam/module-cccam.c:134-148 | the lower half is shown through "CCcam", and byte 8 + i is i times byte i |
| `CcHandshake.KeysFitSeed` | oscam/module-cccam.c:4324-4342 | the seed as exchanged is what the inner key encrypts to under the block set up from the hash, and the hash is what the login hash encrypts to under the inner one |
| `CcHandshake.LoginSays` | oscam/module-cccam.c:4789-4809 | the login decrypts, under the inner block, to the hash and the name in twenty bytes, and behind the password to "CCcam" |
| `CcHandshake.SameNameExactlyWhen` | oscam/module-cccam.c:4413-4422 | two names count as the same if and only if a client sends the same for them |
| `CcEndpoint.HandshakePairsTheBlocks` | oscam/module-cccam.c:4324-4342 | for every seed, user and password that match: the login is accepted, the acknowledgement is read as sent, and the session starts with its blocks paired |
| `CcEndpoint.Endpoint.ServerKeys` | oscam/module-cccam.c:4324-4342 | the server's key set-up leaves the two derived blocks in its object, in place |
| `CcEndpoint.Endpoint.ClientKeys` | oscam/module-cccam.c:4766-4788 | the client's key set-up leaves the same two blocks, crossed over |
| `CcEndpoint.Endpoint.XorSeed` | oscam/module-cccam.c:134-148 | the loop over the seed |
| `CcEndpoint.Endpoint.Login` | oscam/module-cccam.c:4789-4809 | the three login messages and the client's block after them |
| `CcEndpoint.Endpoint.CheckLogin` | oscam/module-cccam.c:4346-4441 | the server's verdict on a login, trying the accounts of the name one after the other from a saved block; after a welcome the block is the one stated |
| `CcEndpoint.Endpoint.CmdSend` | oscam/module-cccam.c:887-955 | the frame on the wire and the encrypting block after it |
| `CcEndpoint.Endpoint.MsgRecv` | oscam/module-cccam.c:785-876 | what is received from a stream, the decrypting block and the flag after it |
| `CcEndpoint.Endpoint.SendDcw` | oscam/module-cccam.c:4055-4097 | a masked answer and the server's extra step |
| `CcEndpoint.Endpoint.TakeDcw` | oscam/module-cccam.c:3598-3610 | the unmasked word and the client's extra step |
| `GboxCipher.KeyReturns` | oscam/module-gbox-helper.c:106-208 | each of the four 32-step passes returns the four key bytes unchanged |
| `GboxCipher.StepsUndo` | oscam/module-gbox-helper.c:106-208 | a decrypting pass walks an encrypting pass back step by step, and the other way round |
| `GboxCipher.MixAtUndo` | oscam/module-gbox-helper.c:106-208 | on a buffer, unmixing a window undoes mixing it and the reverse |
| `GboxCipher.ChainUndo` | oscam/module-gbox-helper.c:152-168 | the XOR chain and its inverse undo each other |
| `GboxCipher.CipherUndo` | oscam/module-gbox-helper.c:210-224 | for every buffer of at least nine bytes and every key, decryption undoes encryption and encryption undoes decryption, also when the two windows overlap |
| `GboxCipher.PassSpellsKey` | oscam/module-gbox-helper.c:64-71 | the key bytes spell the password, most significant byte first |
| `GboxCipher.RotationIsRotation` | oscam/module-gbox-helper.c:116-120 | turning the key bytes right turns the 32-bit number they spell by one bit |
| `GboxCipher.StepShowsEntry` | oscam/module-gbox-helper.c:121-188 | for both rules: the table entry a step looks up is what the bytes before and after it, its neighbour and two key bytes differ by |
| `GboxCipher.PassTouches` | oscam/module-gbox-helper.c:112-125 | step n of an encrypting pass changes byte 0, 7, 6, .., 1, 0, .. and no other |
| `GboxCipher.BetweenWindows` | oscam/module-gbox-helper.c:152-168 | the last byte stays, and bytes between windows that do not meet are only chained |
| `GboxCipher.ApartFromEachOther` | oscam/module-gbox-helper.c:161-216 | what both windows of a buffer of 17 bytes or more become |
| `GboxBuffer.MixInPlace` | oscam/module-gbox-helper.c:106-188 | the encrypting loops, in place, for both rules; the key array ends as it began |
| `GboxBuffer.UnmixInPlace` | oscam/module-gbox-helper.c:128-208 | the decrypting loops, in place |
| `GboxBuffer.ChainInPlace` | oscam/module-gbox-helper.c:161-168 | the chaining loop, in place |
| `GboxBuffer.UnchainInPlace` | oscam/module-gbox-helper.c:152-159 | the unchaining loop, in place, from the end |
| `GboxBuffer.ConvertPw` | oscam/module-gbox-helper.c:64-71 | the loop leaves four key bytes that spell the password, most significant byte first |
| `GboxBuffer.Encrypt` | oscam/module-gbox-helper.c:210-216 | gbox_encrypt leaves the encrypted buffer |
| `GboxBuffer.Decrypt` | oscam/module-gbox-helper.c:218-224 | gbox_decrypt leaves the decrypted buffer |
| `KeyWindow.LeftUndoesRight` | oscam/module-emulator-cryptoworks.c:173-277 | on a 32-bit window that repeats its 28-bit cycle, turning left undoes turning right and the window stays such a window |
| `KeyWindow.RightUndoesLeft` | oscam/module-emulator-cryptoworks.c:173-277 | turning right undoes turning left |
| `KeyWindow.RightsUndoLefts` | oscam/module-emulator-cryptoworks.c:173-277 | n turns to the right take back n of m turns to the left |
| `KeyWindow.FullTurn` | oscam/module-emulator-cryptoworks.c:173-213 | 28 turns are a full turn of every periodic window |
| `KeyWindow.FourRightsArePeriodic` | oscam/module-emulator-cryptoworks.c:215-277 | four turns to the right make any window periodic, which is what key preparation relies on |
| `Cryptoworks.SBoxIndicesFit` | oscam/module-emulator-cryptoworks.c:95-151 | after key mixing every byte is a valid index into the 64-entry tables |
| `Cryptoworks.RoundUndo` | oscam/module-emulator-cryptoworks.c:95-151 | the Feistel property: between two swaps of the halves a round undoes itself |
| `Cryptoworks.SchedulesMeet` | oscam/module-emulator-cryptoworks.c:363-386 | the two rotation tables meet: what mode 0 has turned back and what mode 1 has turned add up to one full turn |
| `Cryptoworks.KeysOfModeOne` | oscam/module-emulator-cryptoworks.c:363-386 | mode 1's key after n rounds is the prepared key turned left by the sum of its table |
| `Cryptoworks.KeysOfModeZero` | oscam/module-emulator-cryptoworks.c:363-386 | mode 0 visits mode 1's round keys in reverse |
| `Cryptoworks.RoundsRetrace` | oscam/module-emulator-cryptoworks.c:363-386 | mode 0 run on the swapped result of mode 1 retraces its rounds |
| `Cryptoworks.RoundsRetraceBack` | oscam/module-emulator-cryptoworks.c:363-386 | mode 1 retraces mode 0 |
| `Cryptoworks.PreparedIsPeriodic` | oscam/module-emulator-cryptoworks.c:279-320 | a prepared key always consists of two periodic windows |
| `Cryptoworks.R2MirrorsL2` | oscam/module-emulator-cryptoworks.c:322-361 | r2_des is l2_des backwards up to one swap, in both orders |
| `Cryptoworks.DesUndo` | oscam/module-emulator-cryptoworks.c:363-386 | cw_des in mode 0 and in mode 1 undo each other up to a swap |
| `Cryptoworks.DecEncUndo` | oscam/module-emulator-cryptoworks.c:388-398 | for every 22-byte key, algorithm and block, cw_dec_enc with an even and with an odd m are mutual inverses |
| `CryptoworksBits.IndexBit` | oscam/module-emulator-cryptoworks.c:117-140 | bit m of the index of S-box s is one bit of the half, as in the expansion of DES, and one bit of the key, combined by exclusive or |
| `CryptoworksBits.SameIndicesExactlyWhen` | oscam/module-emulator-cryptoworks.c:97-140 | whatever the data, two keys lead to the same indices if and only if they agree on all 48 bits of the tables |
| `CryptoworksBits.RoundBit` | oscam/module-emulator-cryptoworks.c:142-150 | a round keeps one half and changes every bit of the other by one bit of one S-box |
| `CryptoworksBits.PushedInto` | oscam/module-emulator-cryptoworks.c:287-311 | byte m of what a key is pushed into takes every seventh bit of it from bit 6 - m on |
| `CryptoworksBits.PreparedNibbles` | oscam/module-emulator-cryptoworks.c:313-319 | the two 28-bit cycles of a prepared key show every nibble of those seven bytes exactly once, in this order |
| `CryptoworksBits.ShortKeyParts` | oscam/module-emulator-cryptoworks.c:153-171 | the short key is what is left of the last six key bytes and behind it the algorithm's part of the first half |
| `CryptoworksBits.KeyBytesUsed` | oscam/module-emulator-cryptoworks.c:322-398 | only bytes 9 to 16 of the key matter for the middle cipher and only the short key for the outer ones |
| `CryptoworksBits.KeyExchangedExactlyWhen` | oscam/module-emulator-cryptoworks.c:79-85 | the key is left as it is if and only if bit 1 of m is clear or its halves are equal; otherwise they are exchanged |
| `CryptoworksBuffers.SwapData` | oscam/module-emulator-cryptoworks.c:87-93 | swapping the halves of a block, in place |
| `CryptoworksBuffers.LsDesKey` | oscam/module-emulator-cryptoworks.c:173-213 | the left rotation loops over both windows, in place |
| `CryptoworksBuffers.RsDesKey` | oscam/module-emulator-cryptoworks.c:215-277 | the right rotation loops, in place |
| `CryptoworksBuffers.DesRound` | oscam/module-emulator-cryptoworks.c:95-151 | des_round in place; CryptoworksBits.RoundBit and CryptoworksBits.IndexBit say what a round computes |
| `CryptoworksBuffers.PrepareKey` | oscam/module-emulator-cryptoworks.c:279-320 | prep_key with its bit-pushing loops |
| `CryptoworksBuffers.MakeShortKey` | oscam/module-emulator-cryptoworks.c:153-171 | cw_48_key with its downward loop |
| `CryptoworksBuffers.L2Des` | oscam/module-emulator-cryptoworks.c:322-337 | l2_des in place |
| `CryptoworksBuffers.R2Des` | oscam/module-emulator-cryptoworks.c:339-361 | r2_des in place |
| `CryptoworksBuffers.CwDes` | oscam/module-emulator-cryptoworks.c:363-386 | cw_des in place |
| `CryptoworksBuffers.CwDecEnc` | oscam/module-emulator-cryptoworks.c:388-398 | cw_dec_enc in place, including the swap of the key halves |
| `CardWire.DecodeOfEncode` | oscam/module-cccshare.c:126-266 | reading what write_card wrote rebuilds the card, with the own node appended and the stated canonical form, for every card whose message fits |
| `CardWire.ProvidersArrive` | oscam/module-cccam.c:2521-2542 | provider records arrive with 24-bit numbers, shared addresses only when allowed, and 0xFFFFFF of a Betacrypt card read as the position |
| `CardWire.BetacryptRepeats` | oscam/module-cccam.c:2521-2542 | reading can repeat a provider: every Betacrypt card with the providers 1 and 0xFFFFFF, which are distinct, is read with a provider twice |
| `CardWire.FittingCounts` | oscam/module-cccshare.c:126-266 | a message that fits its buffer has provider and node counts that fit their bytes |
| `CardWire.MessageLayout` | oscam/module-cccshare.c:126-152 | where a message has share id, remote id, caid, hop, reshare, serial and counts, and in which byte order |
| `CardWire.ProviderLayout` | oscam/module-cccshare.c:143-160 | where provider i stands, its number in three bytes before its address |
| `CardWire.NodeLayout` | oscam/module-cccshare.c:246-266 | where node i stands |
| `CardWire.SidsAreCut` | oscam/module-cccshare.c:163-243 | the sids sent are the first 240 of the tables' or the first 200 of the card's own |
| `CardWire.CutExactlyWhen` | oscam/module-cccam.c:2454-2604 | of the beginnings of a message exactly two are read: all of it, and what comes before the count of nodes, which gives the card without nodes |
| `CardBuffers.WriteCard` | oscam/module-cccshare.c:126-266 | write_card with its loops, its offset and its 8-bit counters in a cleared buffer of 1024 bytes writes exactly the specified message and nothing behind it |
| `CardBuffers.ReadCard` | oscam/module-cccam.c:2454-2604 | read_card with its moving offset and length checks yields exactly the specified card or refusal |
| `CardList.AddedIsUnion` | oscam/module-cccshare.c:698-731 | merging providers yields the union of the numbers |
| `CardList.AddedStaysDistinct` | oscam/module-cccshare.c:698-731 | and keeps a list without duplicates free of them |
| `CardList.MergedSize` | oscam/module-cccshare.c:956-964 | the merged list never exceeds the predicted count, and reaches it when the added providers are distinct |
| `CardList.EqualProvidersIsSetEquality` | oscam/module-cccshare.c:845-873 | for lists without duplicates equal_providers decides equality of the provider sets |
| `CardList.EqualProvidersExactlyWhen` | oscam/module-cccshare.c:845-873 | for every list: equal_providers compares it correctly, as a set, with every list without repetitions if and only if it has none itself |
| `CardList.LikeCccamKeepsTheNearest` | oscam/module-cccshare.c:1043-1076 | without minimising, over any sequence: of the cards that same_card takes for the same the list has one, as it was offered with the least hop |
| `CardList.HopsListsOnceExactlyWhen` | oscam/module-cccshare.c:995-1039 | for every set of cards: MINIMIZE_HOPS lists each class once, however often and in whatever order the cards are offered, if and only if no card of the set repeats a provider |
| `CardList.OfferedTwice` | oscam/module-cccshare.c:995-1039 | a card offered twice is listed once if it repeats no provider, and twice if it does |
| `CardList.HopsKeepsTheNearest` | oscam/module-cccshare.c:995-1039 | for cards without repeated providers, over any sequence: one card per class, and the hops shown are exactly the least hops offered |
| `CardList.OrderDoesNotMatter` | oscam/module-cccshare.c:995-1039 | for cards without repeated providers, what MINIMIZE_HOPS shows depends only on which cards are offered, not on order or repetition |
| `CardList.OrderMattersForRepetitions` | oscam/module-cccshare.c:995-1039 | with a repeated provider it depends on the order whether a card's class is shown with its hop |
| `CardList.HopsKeepsGroupsOfTheNearest` | oscam/module-cccshare.c:1007-1036 | for cards without repeated providers: the groups of a list card are exactly those that came with a card of its class when the class's least hop had been reached; the groups of a card replaced by a nearer one are lost |
| `CardList.MergedStandsForBoth` | oscam/module-cccshare.c:984-992 | a MINIMIZE_CAID merge carries exactly the union of providers and groups, and at most 32 providers |
| `CardList.CaidKeepsCovered` | oscam/module-cccshare.c:946-992 | MINIMIZE_CAID over any sequence: every card offered is covered by a list card of its class, and no list card exceeds 32 providers if no offer does |
| `CardList.CaidInventsNothing` | oscam/module-cccshare.c:946-992 | every provider and group of a list card was offered with a card of its class |
| `CardList.EntryKeepsNodesExactlyWhen` | oscam/module-cccshare.c:946-992 | the entry that stands for a card that came through nodes keeps them if and only if nothing on the list counts as the same under MINIMIZE_CAID |
| `CardList.CaidKeepsNodesExactlyWhen` | oscam/module-cccshare.c:946-992 | for cards that all came through nodes: the list has the nodes of every card offered if and only if it is as long as what was offered, that is if nothing was merged |
| `ServerList.NumSameProviders` | oscam/module-cccshare.c:814-839 | the nested loops count the entries of one list that occur in the other |
| `ServerList.CheckEqualProviders` | oscam/module-cccshare.c:845-873 | the nested loops decide equal_providers |
| `ServerList.AddProviders` | oscam/module-cccshare.c:698-731 | the nested loops append what is missing, in order |
| `ServerList.AddNodes` | oscam/module-cccshare.c:733-756 | the same for remote nodes |
| `ServerList.CopyCard` | oscam/module-cccshare.c:763-787 | a copy without share id, with providers and nodes without repetitions |
| `ServerList.Cardlist.Search` | oscam/module-cccshare.c:952-967 | the search loops of the three modes find the first card that counts as the same |
| `ServerList.Cardlist.Add` | oscam/module-cccshare.c:935-1083 | add_card_to_serverlist changes the list as specified and reports whether the card was entered |
| `ServerList.Cardlist.AddAllOf` | oscam/module-cccshare.c:1470-1490 | offering cards one after the other |
| `ShareList.EveryOldCardOnce` | oscam/module-cccshare.c:1106-1152 | an update splits the old list: as multisets, matched cards and left over cards make up the old list, and the old count = kept + removed, the new count = kept + added |
| `ShareList.MatchedOrNew` | oscam/module-cccshare.c:1090-1152 | a matched card inherits id and timeout from an equal card that has not timed out, an unmatched one is unchanged, and no left over card matches a card counted as new |
| `ShareList.IdsAreConserved` | oscam/module-cccshare.c:1106-1152 | every share id in use ends up, as often as before, in the new list or among the left over cards |
| `ShareList.MinimisedHasNoIds` | oscam/module-cccshare.c:763-787 | the list an update builds holds no share ids yet, in all three modes |
| `ShareList.ShareIdsRepeat` | oscam/module-cccshare.c:19-19 | two ids handed out are equal exactly when their numbers differ by a multiple of 2^32 |
| `ShareRuns.SendIds` | oscam/module-cccshare.c:333-334 | sending changes nothing but ids, gives them only to cards that somebody accepts and that have none, and gives increasing ones |
| `ShareRuns.ReportKeepsIdsGood` | oscam/module-cccshare.c:1106-1152 | after matching, ids are distinct and no id of a left over card is in the list |
| `ShareRuns.ShareIdsStayDistinct` | oscam/module-cccshare.c:1500-1566 | over every sequence of updates and logins, nonzero share ids are pairwise distinct and below the counter, until it wraps |
| `ShareRuns.UpToDateExactlyWhen` | oscam/module-cccshare.c:409-441 | after an update the client knows only ids that name a card if and only if every left over card it knew of is, as last reported, valid for it |
| `ShareRuns.UpToDateAlongExactlyWhen` | oscam/module-cccshare.c:1500-1566 | over every run of updates and logins and for every filter: at no point does the client know an id that names nothing, if and only if at every update all left over cards it knows of are valid for it |
| `ShareRuns.ClientStaysUpToDate` | oscam/module-cccshare.c:1500-1566 | it is enough that at every update the known cards that are found again are still valid for the client as found |
| `ShareRuns.PeerStaysUpToDate` | oscam/module-cccshare.c:538-577 | the same for the filter of the code, card_valid_for_client, which looks at all nodes, the hop, the reshare and the account's lists |
| `ShareRuns.HopLimitLeavesStaleIds` | oscam/module-cccshare.c:409-441 | for every account, peer and card at the account's hop limit: the card comes, is found one hop further, and goes; then the list is empty and the peer still knows its id |
| `ShareServer.Sharelist.FindReported` | oscam/module-cccshare.c:1106-1122 | the search loop takes the first matching card out of the old list |
| `ShareServer.Sharelist.ReportAll` | oscam/module-cccshare.c:1500-1520 | the reporting loop |
| `ShareServer.Sharelist.SendAll` | oscam/module-cccshare.c:393-407 | the sending loop with the shared counter |
| `ShareServer.Sharelist.Update` | oscam/module-cccshare.c:1500-1541 | the tail of update_card_list: new list, counter, cards removed and cards added |
| `ShareServer.Sharelist.ReportTo` | oscam/module-cccshare.c:1547-1571 | reporting all cards to a client that logs in |
| `CardSpread.NewReshareExactly` | oscam/module-cccshare.c:300-331 | int8_t conversions included, an ordinary card is sent on exactly if its own reshare (less one if remote) is from 0 to 127 and the limit is not negative, and then with the lower of the two |
| `CardSpread.SentWithTheLeast` | oscam/module-cccshare.c:300-331 | the reshare an ordinary card is sent with is the least of its budget, the account's reshare and its reader's, each the global one at -1; it is sent at all if and only if none is negative and the budget is at most 127 |
| `CardSpread.SentInstead` | oscam/module-cccshare.c:300-331 | a user service goes with the account's reshare, and with an ignored reshare it is the lower of account and reader |
| `CardSpread.SentExactlyWhen` | oscam/module-cccshare.c:538-577 | a client is sent an ordinary card if and only if its filters pass it, the card has not come through it, is not beyond its hop limit, and something of the reshare is left; the test for reshare 0 follows |
| `CardSpread.MessagesKeepSettings` | oscam/module-cccshare.c:293-342 | over every run: every message was sent by some step, within the hop limit of its account and, user services apart, with no more reshare than the account and the card's reader are set to |
| `CardSpread.HeldOnce` | oscam/module-cccam.c:3027-3049 | over every run, with repeated messages: no two cards from one server have the same share id or are the same card |
| `CardSpread.BudgetKeptExactlyWhen` | oscam/module-cccshare.c:311-331 | a card is sent with no more than its budget if and only if the settings used instead of its reshare (user service, ignored reshare) do not exceed it |
| `CardSpread.WrittenIsEncoded` | oscam/module-cccshare.c:336-340 | overwriting byte 11 of the message is the same as writing the card with that reshare |
| `CardSpread.ListKeepsWays` | oscam/module-cccshare.c:995-1076 | every card of a list not minimised by caid has the nodes, hop, reshare and kind of some offered card |
| `CardSpread.CardsTravelSimplePaths` | oscam/module-cccam.c:2965-3049 | in every state of any network reached by updates that merge no cards that came through nodes: a held card came along a path without cycles that ends with its server and avoids its holder, from a node that made it; without MINIMIZE_CAID its hop count is the path length plus its maker's hop, and if every send keeps to the budget the path is as short as the maker's reshare says |
| `CardSpread.ReshareBoundsTheWay` | oscam/module-cccshare.c:293-331 | if no update minimises by caid and every card sent is sent within its budget, by the exact condition for one send: reshare + hop <= origin's reshare + hop + 1, and the path is at most origin's reshare + 1 long |
| `CardSpread.PathsFitTheNetwork` | oscam/module-cccam.c:2993-3008 | a path is shorter than the number of nodes |
| `CardSpread.OneHopExactlyWhen` | oscam/module-cccam.c:2953-3049 | a new card reaches the next node if and only if client filters, reshare left and reader limits allow it, and then carries the reshare left |
| `CardSpread.UserServiceOverspends` | oscam/module-cccshare.c:312-315 | a card of a user service with reshare 0 arrives with the account's reshare 5, beyond the bound |
| `CardSpread.MergingForgetsTheWay` | oscam/module-cccshare.c:984-992 | for any two nodes and any two plain cards of one caid: a run with an update by caid after which the first node holds a card it has made itself, listed as having come from the other |
| `CardReader.CheckValid` | oscam/module-cccshare.c:538-577 | the filter of a client, with the loop over the card's nodes |
| `CardReader.ReshareFor` | oscam/module-cccshare.c:298-331 | the reshare for a message, assigned step by step in int8_t variables; CardSpread.SentWithTheLeast and CardSpread.SentInstead say which that is |
| `CardReader.Connection.Knows` | oscam/module-cccam.c:3027-3036 | the loop that looks for a known card |
| `CardReader.Connection.NewCard` | oscam/module-cccam.c:2953-3049 | a new card message adds the card one hop further, or nothing |
| `CardReader.Connection.CardRemoved` | oscam/module-cccam.c:2606-2666 | exactly the cards of that share id are removed |
| `CycleRuns.RunsStayGood` | oscam/module-cw-cycle-check.c:191-683 | in every reachable state each entry has a stage in 0..4, stage 3 exactly if the next half is known, the 15-slot ring holds the last min(15, k) stored requests, and the counter is the number of entries not marked old |
| `CycleRuns.LearnKeeps` | oscam/module-cw-cycle-check.c:449-566 | learning keeps the pairing of stage and next half |
| `CycleRuns.RingSearchIsHistorySearch` | oscam/module-cw-cycle-check.c:380-412 | a search of the ring finds a request if and only if it is among the last 15 stored |
| `CycleRuns.BadExactlyWhen` | oscam/module-cw-cycle-check.c:295-447 | verdict 1 is returned if and only if the channel is learned and in its window, the word breaks the cycle, no fallback applies, and the request is not among the last 15 stored |
| `CycleRuns.RepeatedIsNeverBad` | oscam/module-cw-cycle-check.c:380-412 | an ECM whose hash is among the last 15 stored is never called bad |
| `CycleRuns.AcceptedChangesOneHalf` | oscam/module-cw-cycle-check.c:295-377 | verdict 0 changes exactly one half, the other is the one that was named, and the new entry names the half that changed |
| `CycleRuns.AcceptedHalvesAlternate` | oscam/module-cw-cycle-check.c:191-683 | over whole runs: two successive accepted words of a channel change alternating halves, whatever happens to other channels and cleanings in between |
| `CycleRuns.ToldExactlyWhenAccepted` | oscam/module-cw-cycle-check.c:355-373 | the request is told its next half, and a cycle time below 128, if and only if the verdict is 0; the half told is the one the new entry names |
| `CycleRuns.AnnouncementSurvivesPush` | oscam/module-cw-cycle-check.c:361-369 | what an accepted request is told, if the entry has a cycle time below 128, survives the byte it is pushed in |
| `CycleSteady.LearnedHalfHasChanged` | oscam/module-cw-cycle-check.c:488-531 | when a channel is learned, the half named is the one in which the request's word differs from the stored one, and the other half is the same |
| `CycleSteady.LearnedExactlyWhen` | oscam/module-cw-cycle-check.c:449-566 | a channel in stage 2 or 4, not locked, is learned if and only if exactly one half of the word changes and, in stage 2, the interval is kept within a second |
| `CycleSteady.SteadyChannelIsAccepted` | oscam/module-cw-cycle-check.c:191-683 | over runs: a new channel whose words change their halves in turn at a steady interval is learned from five requests (four, if the interval is about 99 seconds), and every word after them gets verdict 0, whatever other channels do |
| `CycleSteady.AcceptedExactlyWhen` | oscam/module-cw-cycle-check.c:295-377 | verdict 0 if and only if the answer is in time, leaves the named half alone and changes the other in enough bytes; then the lateness is measured anew |
| `CycleSteady.IgnoredExactlyWhenLate` | oscam/module-cw-cycle-check.c:295-300 | a learned channel's request is ignored if and only if the last answer is twice the interval old, less the lateness learned and one second |
| `CycleSteady.LearnedAgain` | oscam/module-cw-cycle-check.c:426-447 | what a late channel goes back to, its word forgotten |
| `CycleSteady.SameWordVerdict` | oscam/module-cw-cycle-check.c:301-317 | the word of the last answer is too old if and only if such words are dropped and the interval less the lateness is over |
| `CycleSteady.RepeatedVerdict` | oscam/module-cw-cycle-check.c:380-412 | a repeated request that breaks the cycle is too old or the same again, by the word stored with it |
| `CycleSteady.NullWordsAreIgnored` | oscam/module-cw-cycle-check.c:122-144 | null words but for BISS, half null words of Videoguard and answers not found change nothing |
| `CycleSteady.CacheExIsBelieved` | oscam/module-cw-cycle-check.c:266-292 | interval and half that came over cache exchange make the channel learned, if they are used |
| `CycleSteady.CleaningKeeps` | oscam/module-cw-cycle-check.c:146-187 | a cleaning of a list that is newest first keeps exactly the entries renewed within the minutes to keep them and half a minute |
| `CycleSteady.CleaningsApart` | oscam/module-cw-cycle-check.c:146-155 | cleanings are two minutes apart at least |
| `CycleRuns.CutIsFilterExactlyWhen` | oscam/module-cw-cycle-check.c:146-187 | cutting at the first stale entry keeps exactly the fresh ones if and only if no fresh one stands behind a stale one |
| `CycleRuns.CleaningIsExactOverRuns` | oscam/module-cw-cycle-check.c:146-187 | with request times that never go back the list stays newest first, so every cleaning removes exactly the entries over the limit |
| `CycleChecker.Checker.Lookup` | oscam/module-cw-cycle-check.c:238-262 | the lookup loop finds the first matching entry |
| `CycleChecker.Checker.SearchRing` | oscam/module-cw-cycle-check.c:385-407 | the loop over the ring |
| `CycleChecker.Checker.CountSame` | oscam/module-cw-cycle-check.c:89-120 | countCWpart: the number of equal bytes |
| `CycleChecker.Checker.LearnCopy` | oscam/module-cw-cycle-check.c:449-578 | the learning part, on a copy of the entry; CycleSteady.LearnedExactlyWhen and CycleSteady.LearnedHalfHasChanged say what is learned |
| `CycleChecker.Checker.JudgeCopy` | oscam/module-cw-cycle-check.c:266-447 | the judgement of a request against a copy of its entry, and what is written back to the request |
| `CycleChecker.Checker.CheckCycle` | oscam/module-cw-cycle-check.c:191-683 | checkcwcycle_int: new list, counter and verdict, and the cycle time and next half written back to the request |
| `CycleChecker.Checker.CleanUp` | oscam/module-cw-cycle-check.c:146-187 | cleanupcwcycle: new list and counter |
| `PushWire.SwapTwice` | oscam/module-camd35-cacheex.c:23-26 | the byte swap of the CSP hash undoes itself |
| `PushWire.SwapReverses` | oscam/module-camd35-cacheex.c:23-26 | it turns the four bytes of a word around |
| `PushWire.CycleExactlyWhen` | oscam/module-camd35-cacheex.c:1160-1164 | a known cycle time and next half come back if and only if the time is below 128; an unknown one arrives as 0 |
| `PushWire.PushArrives` | oscam/module-camd35-cacheex.c:1134-1358 | for both framings, every node list the hop limit allows and whatever else is in the receiver's buffer, push_in on push_out's bytes recovers ids, hash, digest, control word and parity, and the nodes with the sender in front, and learns the sender's id |
| `PushWire.HeadLayout` | oscam/module-camd35-cacheex.c:1161-1185 | where the first 20 bytes of both framings have what, and in which byte order |
| `PushWire.PushLayout` | oscam/module-camd35-cacheex.c:1187-1216 | where digest, hash, control word, count and node list stand behind them |
| `PushWire.NodeInPush` | oscam/module-camd35-cacheex.c:1201-1216 | where node i stands, the sender being node 0 |
| `PushWire.ParityExactlyWhen` | oscam/module-camd35-cacheex.c:1185-1185 | only 0x80 and 0x81 are passed on, anything else becomes 0 |
| `PushWire.LengthsTaken` | oscam/module-camd35-cacheex.c:1235-1345 | which lengths are taken: camd35 from 36 on, 36 itself without a node list, which then names the peer if it is known; CCcam 36 alone |
| `PushWire.LongListIsRefused` | oscam/module-camd35-cacheex.c:1339-1345 | a longer list is refused |
| `PushWire.TailArrives` | oscam/module-cccam-cacheex.c:1192-1226 | digest, hash, word and node list behind byte 20 are read back as written |
| `PushBuffers.PutHead` | oscam/module-camd35-cacheex.c:1151-1173 | the first 20 bytes of both framings, written into the zeroed buffer |
| `PushBuffers.PutNodeList` | oscam/module-camd35-cacheex.c:1203-1216 | the loop that appends the other nodes |
| `PushBuffers.WritePush` | oscam/module-cccam-cacheex.c:1116-1216 | push_out through a moving offset yields exactly the specified message |
| `PushBuffers.ReadPush` | oscam/module-cccam-cacheex.c:1285-1410 | push_in through a moving offset in its receive buffer, without a look at how much was received, yields exactly the specified request |
| `Gossip.CheckPush` | oscam/module-camd35-cacheex.c:1069-1132 | push_chk with its loop: a push is allowed exactly below the hop limit, to a known peer that the list does not name, once |
| `Gossip.PushedExactlyWhen` | oscam/module-camd35-cacheex.c:1069-1132 | a frame goes out if and only if the word is cached, found or open, below the hop limit, for a known peer that its list does not name, and for the first time |
| `Gossip.OneHopExactlyWhen` | oscam/module-camd35-cacheex.c:1134-1358 | an answer reaches a peer if and only if it has a hash, was found or is open and both hop limits allow a hop, and then as it was with its maker's node |
| `Gossip.NothingWithoutHash` | oscam/oscam-cache.c:674-690 | over every run no node keeps a word without a hash |
| `Gossip.PushesTravelSimplePaths` | oscam/module-camd35-cacheex.c:1069-1132 | over every run of any network without self links: a request accepted from a peer lists a path without cycles that starts with that peer, ends with the node that answered it, avoids the receiver and keeps to its limit, and the answer is unchanged |
| `Gossip.PathsFitTheNetwork` | oscam/module-camd35-cacheex.c:1069-1132 | no request passes through more nodes than there are |
| `Gossip.PeersAreKnownRightly` | oscam/module-camd35-cacheex.c:1437-1446 | peer ids, asked for or taken from the first push, are the peers' own |
| `PushWire.KeyArrives` | oscam/module-camd35-cacheex.c:1193-1199 | a push names the CSP hash and control word it carries, however long its node list |
| `Gossip.PropagationEnds` | oscam/oscam-cache.c:177-215 | over every run, with frames repeated, lost and reordered and words cached again and again: the frames ever sent for one CSP hash and control word are at most as many as the links they went over, so propagation ends |
| `HitCache.RecentHitIsFound` | oscam/module-cacheex.c:90-171 | a key added by a client of some groups less than the maximum ago is found for every client that shares one, however additions and clean-ups interleave |
| `HitCache.FoundWasHit` | oscam/module-cacheex.c:90-122 | what is found was added no longer than the maximum ago, and for groups one of its hits had |
| `HitCache.FoundExactlyWhenYounger` | oscam/module-cacheex.c:90-251 | for every maximum and age: hits of that age, by a client that shares a group, are found after every continuation if and only if the age is below the maximum |
| `HitCache.FoundExactlyWhen` | oscam/module-cacheex.c:90-122 | a key of the table is found if and only if its last hit is no more than the maximum ago and client and entry share a group or one has none |
| `HitCache.CleanUpKeepsExactly` | oscam/module-cacheex.c:200-251 | a clean-up keeps exactly the keys last hit no more than one and a half times the maximum ago, a forced one none |
| `HitCache.Cache.Lookup` | oscam/module-cacheex.c:90-122 | on the object, in terms of the log of what was done to it: every logged hit younger than the maximum is found, and what is found was logged at most the maximum ago, for a group one of its hits had |
| `HitCache.Cache.AddHit` | oscam/module-cacheex.c:124-171 | an addition in the table and its list |
| `HitCache.Cache.CleanUp` | oscam/module-cacheex.c:200-251 | the loop removes or rotates every entry |

## Left out

- CcHandshake.LoginIsRecognised: passwords are at most 64 bytes, as the server's buffer allows; whether an account is active or already connected is not modelled.
- CcSessionRuns.SessionStaysInStep: covers connections in normal mode. Frames that leave it are not among the steps: the CMD_05, CMD_0B and CMD_0C exchanges with their additional ciphers, the PARTNER notes and the OSCam node ids by which two OSCam ends agree on the extended mode, server data from a client, and EMM requests, which also use the busy flag.
- CardWire.DecodeOfEncode: says nothing of cards whose message does not fit the 1024-byte buffer.
- CardBuffers.WriteCard: says nothing of messages longer than the buffer; the source does not look whether they fit.
- ShareRuns.ShareIdsStayDistinct: holds until the 32-bit counter wraps; after that ids repeat (`ShareList.ShareIdsRepeat`).
- PushWire.PushArrives: the pid is not sent, so it is not part of a request here; bytes 4 to 7 of a camd35 message, which the transport fills with a checksum, are zero.
- PushBuffers.ReadPush: says nothing of a receive buffer too short for the longest list the hop limit allows, beyond which the source reads on.
- Gossip.PropagationEnds: clean-ups of the cache are not steps, so it speaks of the time a word is kept, and the limit of ten words a hash keeps is not modelled.
- HitCache.RecentHitIsFound: explicit deletions (`cacheex_del_hitcache`) and forced clean-ups are excluded, and the configured maximum is taken to be small enough for its multiple in milliseconds to fit 32 bits.
- CycleChecker.Checker.CheckCycle: logging and the locks are not modelled; a difference of two bytes stands for the result of `memcmp`.
- ServerList.Cardlist.Add: merging of the good and bad sid lists of merged cards is not modelled, nor is the forwarding of origin cards, which replaces minimising.
- CardList.HopsKeepsTheNearest: needs cards without repeated providers, as do `CardList.OrderDoesNotMatter` and `CardList.HopsKeepsGroupsOfTheNearest`; `CardList.HopsListsOnceExactlyWhen` shows that one card per class holds for no other cards.
- Which card a client picks for a request, retries and temporary blocking of services.
- Conversion of unique and shared addresses, reader ids, card timeouts drawn at random (a card's timeout is a field).
- Hiding and unhiding of single cards from the user interface.
- The peer check by checksum of the node id, keep-alive messages, version texts, stealth mode.
- What the cache does with an accepted push besides keeping it: choosing between words, counting, and not pushing after a delay. Every accepted push may be pushed on here, at most once to each peer.
- The transport of camd35 (AES and checksum), sockets, threads, locks, timeouts, configuration files and logging.
- AES, DES, IDEA, RC4, RC6, MD5 and SHA-1 themselves, compression, the other emulators, card readers and DVB devices.
