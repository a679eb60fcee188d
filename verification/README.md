# Encrypted file transfer: a verified model

A C++ client registers with a Python server, receives an AES key under its RSA key, sends one
file encrypted in CBC, and compares CRC-32 checksums with the server before the server puts the
file on its disk. The client encrypts with Crypto++ (`libs/cryptopp`). This project models that
system in Dafny and proves what it promises, from the block loops of the cipher library up to
runs of any number of clients against one server. `dafny verify dfyconfig.toml` verifies it.

| module | part of the system |
|---|---|
| `Octets`, `Powers`, `Wrappers`, `Blocks` | bytes, powers of the byte base, options, 128-bit blocks with the one-byte counter and the vector lanes that advance it |
| `BlockProcessing` | the batched block routine over one shared memory, as array loops, and the one-block loop it refines |
| `Hazards`, `HazardWitnesses`, `ExactHazards` | exactly when the batches may replace single blocks, for pointers that move |
| `FixedPointers`, `FixedWitnesses`, `ExactFixedPointers` | the same for pointers that do not |
| `Calls` | what any call leaves in memory, told by flags and arguments |
| `Modes` | CBC, counter mode and a CBC code as pointer layouts of that one routine |
| `Crc` | the table-driven CRC-32, its division, its burst detection |
| `Protocol`, `Framing`, `Payload` | packed messages, 1024-byte packets, reassembly, padding, encryption, truncation |
| `Paths`, `Store` | full paths; tables, file dictionary and disk |
| `Server`, `Client` | dispatch from packets and the request handlers; the client's queue and checksum loop |
| `Session`, `System`, `StoreSafety` | one session to its end, over packets; every interleaving of listener, threads, clients and channels |
| `Runs` | runs that exist: whole sessions, and a corrupted one, step by step |
| `Asn`, `Shuffle` | DER/BER unsigned integers; Fisher-Yates |
| `Encodings`, `LineEditor`, `Registration` | Base64, hex, trimming; the line editor; the file `me.info` |

Each object whose methods change state is a class, or a method over an array. Its methods are
tied by their postconditions to functions on values, and the theorems are about those functions.
Block memory is one array with block addresses, so input, mask and output may overlap in any
way. Random values, new ids and keys, arriving packets and the interleaving are parameters, over
which the theorems quantify. The cipher is any pair of functions of which one inverts the other;
RSA wrapping is any pair of functions.

Where the code does not do what its comments or its purpose suggest, the model follows the code
and the exact condition is proved:

- For pointers that move, batches may replace single blocks, for every one-to-one cipher and every memory, exactly when no batch that runs stores a block which a later block of the same batch loads, or masks with the counter other than as its last output mask; the one exception is a block masked with itself on input (`ExactHazards.BatchesExactlySafe`). So CBC encryption with `BT_AllowParallel` is the chain exactly when the run is too short for a batch (`Modes.ParallelChaining`).
- For pointers that do not move, they may exactly when every step that the result depends on is alone: what it reads was stored before its batch began, and its input mask is not the counter unless it is a single step (`ExactFixedPointers.FixedExactlySafe`). So a chain in one register survives `BT_AllowParallel` exactly when the run is too short for a batch (`Modes.ParallelRegister`).
- Encrypted bodies of 743 to 1024 bytes are rejected, so a file padded to 736 up to 1008 bytes can not be sent (`Framing.FileMessageDelivered`, `Payload.Pipeline`, `Session.WholeSession`).
- The store invariant breaks exactly on a file message that replaces another row's verified entry, or replaces any entry without a content, and on an approval whose row or file disagrees with others, or whose file does not open (`Server.HandleInvariant`). An absolute file name does the first, since it is the same path for every client (`Store.AbsoluteNameBreaks`); a name with a missing directory does the last and is approved all the same (`Store.UnopenedBreaks`). Among plain names only an undecryptable body for an own file remains (`Server.PlainHarmless`); an approval then truncates the file on disk (`Session.UndecryptableTruncates`), and over whole runs it takes a corruption that leaves no whole number of blocks (`StoreSafety.StoreOkInEveryRun`).
- A file name that another client owns is answered with checksum 0, which an empty file's client approves; the server then refuses (`Session.ConflictingName`).
- The lock is taken exactly while a thread holds it (`System.LockHasHolder`). On a channel that delivers or closes, a thread keeps it for ever exactly when its handler raises, on an abort, a key that can not wrap or a repeated request for an own file without content, or when its client closes inside a file (`Server.CrashesExactly`, `System.LostExactly`, `System.NothingServedAfterLoss`).
- A BOOLEAN survives encoding and decoding only when it is 0 or 255 (`Asn.DecodeEncoded`).
- `Shuffle` reaches every order exactly up to 2^32 elements (`Shuffle.UniformUpToWord32`).
- `WriteAtLine` repeats the last line exactly when it lacks its newline and the line number is past the end (`LineEditor.OtherLinesKept`).
- `me.info` loads back exactly when the configured name is not blank (`Registration.RegistrationRoundTrip`); `TcpClient/ClientManager.cpp:20` stops for a blank name before that. The configured name must be shorter than 100, the loaded one may have 100.

## Model

| member | source | states |
|---|---|---|
| `Blocks.BumpsAddModulo256` | libs/cryptopp/include/cryptopp/adv_simd.h:801-802 | any number of counter increments adds that number to byte 15 modulo 256 and leaves the other bytes |
| `Blocks.AddLaneIsBumpByte` | libs/cryptopp/include/cryptopp/adv_simd.h:670-680 | the 32-bit lane addition of SSE and the 64-bit one of NEON are the byte increment of the tail loop: no carry leaves byte 15 |
| `BlockProcessing.StoreCommutes` | libs/cryptopp/include/cryptopp/adv_simd.h:740-751 | storing a batch commutes with a write it does not touch, such as the counter's |
| `BlockProcessing.BatchGrows` | libs/cryptopp/include/cryptopp/adv_simd.h:665-754 | a batch of one more block is the batch followed by one turn of the tail loop, counter included |
| `BlockProcessing.BatchIsSerial` | libs/cryptopp/include/cryptopp/adv_simd.h:665-754 | a batch of any width, all loads before all stores, leaves the memory of as many single steps when it has no hazard or every block is masked with itself |
| `BlockProcessing.BatchedIsSerial` | libs/cryptopp/include/cryptopp/adv_simd.h:663-816 | for every flag set, block count, list of widths and vector unit, a run whose batches are each safe leaves exactly the memory of the one-block loop, counter byte included |
| `BlockProcessing.RunIsSerial` | libs/cryptopp/include/cryptopp/adv_simd.h:644-818 | without `BT_AllowParallel` a call is the one-block loop whatever overlaps; with it, if the batches that run are safe |
| `Hazards.RunDiverges` | libs/cryptopp/include/cryptopp/adv_simd.h:663-816 | what the first unsafe batch stores differently is never made up for by the rest of the run |
| `HazardWitnesses.SafeByGaps` | libs/cryptopp/include/cryptopp/adv_simd.h:647-661 | without a counter, a batch is safe if and only if neither operand lies less than its width behind the output, or the block is masked with itself |
| `ExactHazards.BatchesExactlySafe` | libs/cryptopp/include/cryptopp/adv_simd.h:644-818 | for pointers that move: the call equals the one-block loop for every one-to-one cipher and every memory if and only if every batch that runs is safe, counters and masks by the counter included |
| `FixedPointers.FixedRunIsSerial` | libs/cryptopp/include/cryptopp/adv_simd.h:647-655 | with fixed pointers, runs from memories that differ in the output block only, batched and single, end alike when what the result depends on is alone and some later step forgets the difference |
| `FixedWitnesses.SkippedTold` | libs/cryptopp/include/cryptopp/adv_simd.h:740-751 | a step that its batch skips, though later steps read what it stores, shows under some cipher and memory, for every place of mask, input and output |
| `ExactFixedPointers.FixedExactlySafe` | libs/cryptopp/include/cryptopp/adv_simd.h:644-818 | for pointers that do not move: the call equals the one-block loop for every one-to-one cipher and every memory if and only if each step that the result depends on is alone |
| `ExactFixedPointers.FixedIsSerial` | libs/cryptopp/include/cryptopp/adv_simd.h:644-818 | and then it equals it for any function at all |
| `BlockProcessing.ProcessOne` | libs/cryptopp/include/cryptopp/adv_simd.h:796-815 | one turn of the tail loop in place: masks, counter, cipher, store, the three pointers |
| `BlockProcessing.LoadBatch` | libs/cryptopp/include/cryptopp/adv_simd.h:668-697 | a batch's registers are the counter and its successors, or consecutive blocks; the counter is written back |
| `BlockProcessing.TransformBatch` | libs/cryptopp/include/cryptopp/adv_simd.h:699-738 | every register is masked and enciphered from the memory as it stands before any store |
| `BlockProcessing.StoreBatch` | libs/cryptopp/include/cryptopp/adv_simd.h:740-751 | the registers are stored in order at successive outputs, the last one winning where they meet |
| `BlockProcessing.BatchLoop` | libs/cryptopp/include/cryptopp/adv_simd.h:665-754 | the loop over one width consumes whole batches and leaves fewer blocks than one batch to the next loop |
| `BlockProcessing.TailLoop` | libs/cryptopp/include/cryptopp/adv_simd.h:794-818 | the single-block loop finishes the run and returns the length modulo 16 |
| `BlockProcessing.AdvancedProcessBlocks6x2` | libs/cryptopp/include/cryptopp/adv_simd.h:635-819 | the in-place routine with batches of six and two (SSE, and NEON at lines 388-575) leaves the batched memory, which is the one-block loop's when no hazard exists, and returns the remainder |
| `BlockProcessing.AdvancedProcessBlocksBy1` | libs/cryptopp/include/cryptopp/adv_simd.h:830-950 | the same for one batch width: four (SSE, and NEON at lines 254-377) or six (NEON, lines 100-242) |
| `Calls.PlainCall` | libs/cryptopp/include/cryptopp/adv_simd.h:644-818 | moving pointers, no counter, an output that is one with an operand or apart from it: output i is enc(in i xor mask i) with `BT_XorInput` and a mask, enc(in i) xor mask i with a mask alone, enc(in i) without one; nothing else changes, in either direction, at any width |
| `Calls.CounterCall` | libs/cryptopp/include/cryptopp/adv_simd.h:644-818 | the same with `BT_InBlockIsCounter`: step t works on the counter advanced t times, a reversed call from the last block on, and the counter ends n further |
| `Calls.FixedCall` | libs/cryptopp/include/cryptopp/adv_simd.h:647-655 | with `BT_DontIncrementInOutPointers` and input and output apart, the one output block is the image of the input under the last mask met, the counter included |
| `Calls.RegisterCall` | libs/cryptopp/include/cryptopp/adv_simd.h:647-655 | with input and output one block and no batches, the block is worked on under each mask in turn, the last mask first in a reversed call |
| `Modes.CbcInverse` | TcpClient/AESWrapper.cpp:40-73 | the recurrence of SP 800-38A section 6.2 is undone by its decryption, for every vector and plaintext |
| `Modes.CbcChainUnique` | TcpClient/AESWrapper.cpp:45-51 | a sequence satisfies the chain equation of section 6.2 if and only if it is the encryption |
| `Modes.CbcEncryptChains` | libs/cryptopp/include/cryptopp/adv_simd.h:647-818 | a forward call whose mask trails the output by one block computes the section 6.2 chain and touches nothing else, also in place |
| `Modes.CbcDecryptInPlace` | libs/cryptopp/include/cryptopp/adv_simd.h:657-792 | the reversed batched call with mask one block before the input decrypts any number of blocks in place, although it overwrites what it reads |
| `Modes.CbcRoundTrip` | libs/cryptopp/include/cryptopp/adv_simd.h:647-818 | the two layouts of one routine, one after the other, restore the plaintext and leave all other memory |
| `Modes.ParallelChaining` | libs/cryptopp/include/cryptopp/adv_simd.h:663-792 | `BT_AllowParallel` is harmless on the chaining layout for every cipher and memory if and only if no batch width fits the run |
| `Modes.CounterMode` | libs/cryptopp/include/cryptopp/adv_simd.h:670-680 | output i is data i masked with the image of the counter advanced i times; the counter ends n further modulo 256 |
| `Modes.CounterModeTwice` | libs/cryptopp/include/cryptopp/adv_simd.h:794-816 | a second pass from the same counter restores the data, whatever unit and widths each pass uses |
| `Modes.FixedPointersChain` | libs/cryptopp/include/cryptopp/adv_simd.h:647-655 | with `BT_DontIncrementInOutPointers` and the data as input mask, the one register ends as the last block of the section 6.2 chain of the data |
| `Modes.ParallelRegister` | libs/cryptopp/include/cryptopp/adv_simd.h:663-792 | `BT_AllowParallel` is harmless on that chain for every one-to-one cipher and every memory if and only if no batch width fits the run |
| `Crc.UpdateDivides` | libs/cryptopp/include/cryptopp/crc.h:36-38 | a table look-up and a shift are eight steps of reflected division by 0xEDB88320 |
| `Crc.DivideAllAppends` | libs/cryptopp/include/cryptopp/crc.h:30-38 | hashing in pieces is hashing the concatenation |
| `Crc.Crc32Hash.UpdateByte` | libs/cryptopp/include/cryptopp/crc.h:36-38 | the state after any bytes is the remainder of all of them |
| `Crc.Crc32Hash.Reset` | libs/cryptopp/include/cryptopp/crc.h:48-48 | the state is 0xffffffff and stands for no bytes |
| `Crc.UpdateInjective` | libs/cryptopp/include/cryptopp/crc.h:36-38 | for each byte, different states stay different and equal ones equal |
| `Crc.FourBytesInjective` | libs/cryptopp/include/cryptopp/crc.h:36-38 | from one state, different four-byte strings lead to different states |
| `Crc.FourBytesSurjective` | libs/cryptopp/include/cryptopp/crc.h:36-38 | and every state is reached, so four bytes act as a bijection |
| `Crc.BurstDetected` | libs/cryptopp/include/cryptopp/crc.h:23-48 | messages of one length that differ only within four consecutive bytes have different checksums |
| `Crc.MessageAsBits` | libs/cryptopp/include/cryptopp/crc.h:23-48 | the division of a message byte by byte is its division bit by bit, lowest bit first |
| `Crc.BitBurstDetected` | libs/cryptopp/include/cryptopp/crc.h:23-48 | messages of one length that differ only within 32 consecutive bits, wherever these start, have different checksums |
| `Crc.CollisionIsDivisibility` | libs/cryptopp/include/cryptopp/crc.h:23-48 | messages of one length collide if and only if their difference is divisible by the polynomial |
| `Crc.TableEntries` | libs/cryptopp/include/cryptopp/crc.h:23-24 | the table entries of 0x01, 0x80 and 0xff are 0x77073096, 0xEDB88320 and 0x2D02EF8D |
| `Crc.CheckValue` | TcpServer/file_handler.py:103-108 | the checksum of the nine digits "123456789" is 0xCBF43926, the check value of CRC-32 |
| `Protocol.HeaderRoundTrip` | TcpServer/protocol.py:49-58 | the packed request header is unpacked to the same id, version, code and size |
| `Protocol.RequestRoundTrip` | TcpServer/protocol.py:89-199 | every request of the client but the file is recovered by its handler's unpack, whatever filler follows in the packet |
| `Protocol.ResponseRoundTrip` | TcpClient/TcpClientChannel.cpp:73-195 | a packed and padded response passes the client's header check, is read whole and means what was packed |
| `Protocol.RegistrationLayout` | TcpClient/ServerIcd.h:136-206 | the bytes of 1100: id, version 2, code and size least significant byte first, name and zeros to 255 |
| `Protocol.PublicKeyLayout` | TcpClient/ServerIcd.h:209-222 | the bytes of 1101, which has name and key |
| `Protocol.SendFileLayout` | TcpClient/ServerIcd.h:225-234 | the bytes of 1102: content size, file name, body |
| `Protocol.StatusLayout` | TcpClient/ServerIcd.h:236-255 | the bytes of 1104, 1105 and 1106: the id once more and the file name |
| `Protocol.ResponseLayouts` | TcpClient/ServerIcd.h:146-194 | the bytes of 2100, 2101 and 2104, with version 3 |
| `Protocol.KeyLayout` | TcpClient/ServerIcd.h:168-176 | the bytes of 2102 |
| `Protocol.ChecksumLayout` | TcpClient/ServerIcd.h:178-188 | the bytes of 2103: id, content size, file name, checksum |
| `Protocol.UnreadableExactly` | TcpServer/protocol.py:49-58 | a packet can not be unpacked if and only if it is shorter than its code needs (278 bytes for 1100, 438 for 1101, 294 for 1104 to 1106) or the code is unknown |
| `Protocol.ClientReadExactly` | TcpClient/TcpClientChannel.cpp:73-195 | what the client makes of any packet, by code and size: the sizes it admits, the errors, and the payloads of 1018 to 1024 bytes that run past its buffer |
| `Framing.Channel.Write` | TcpClient/TcpClientChannel.cpp:198-224 | an open channel sends the packets that cover the buffer; when a write fails, the packets before it are sent and the channel closes; a closed one sends nothing |
| `Framing.PacketsFlatten` | TcpClient/TcpClientChannel.cpp:205-222 | those packets are 1024 bytes each and together the message and the memory after it |
| `Framing.ServerWrite` | TcpServer/server.py:74-95 | the send loop produces the response's packets |
| `Framing.ServerPacketsFlatten` | TcpServer/server.py:80-91 | these are 1024 bytes each, as many as needed, and together the response followed by zeros |
| `Framing.UnpackSendFile` | TcpServer/protocol.py:141-171 | the receive loop yields the gathered body, a rejection, or spins on a closed connection, and leaves the rest of the stream |
| `Framing.CollectAnySplit` | TcpServer/protocol.py:158-164 | however the stream is split into non-empty chunks, the loop gathers exactly its first bytes, or spins exactly when there are too few |
| `Framing.CollectPackets` | TcpServer/protocol.py:158-164 | on whole packets it stops at a packet boundary |
| `Framing.FileMessageDelivered` | TcpServer/protocol.py:141-171 | from the client's packets, whatever their filler, the server recovers the file message and stands at the next message if the body has at most 742 or over 1024 bytes, and rejects it otherwise |
| `Framing.RejectedExactly` | TcpServer/protocol.py:141-157 | a first packet is rejected if and only if it is shorter than the fields and the part of the body the unpack takes from it, which is 742 bytes of a body over 1024 and else all of it |
| `Framing.FileMessageCut` | TcpServer/protocol.py:158-164 | when the client closes after some but not all packets of a file, the receive loop never ends |
| `Payload.ReadFileWithPadding` | TcpClient/FileHandler.cpp:118-147 | the buffer is the file followed by fewer than 16 zeros up to a multiple of 16 |
| `Payload.PaddingIsLeast` | TcpClient/FileHandler.cpp:82-95 | the padded length is the least multiple of 16 that holds the file |
| `Payload.DecryptEncrypt` | TcpServer/keys_handler.py:21-32 | decryption and the cut to the announced size undo PKCS padding and encryption |
| `Payload.EncryptChains` | TcpClient/AESWrapper.cpp:40-57 | block k of the body is the cipher's image of block k of the PKCS-padded plaintext masked with the body's block before it, or with zeros |
| `Payload.DecryptCuts` | TcpServer/keys_handler.py:21-32 | there is a result if and only if there is a key and the body is whole blocks; it is as long as announced, or the whole body |
| `Payload.EncryptRunsRoutine` | TcpClient/AESWrapper.cpp:40-57 | the encryption is what one call of the block routine leaves behind a zero vector |
| `Payload.Pipeline` | TcpClient/ClientLogic.cpp:179-228 | from file to packets to decrypted content, the server obtains the file and its zeros exactly for a file of at most 720 bytes or more than 1008; else the message is rejected |
| `Paths.RelativePathsApart` | TcpServer/file_handler.py:13-17 | for names that are not absolute, a full path determines client and name |
| `Paths.PathForms` | TcpServer/file_handler.py:13-17 | an absolute name is its own path; another stands behind the server's directory and the client's id in hex |
| `Paths.LowerHexDigits` | TcpServer/file_handler.py:32-32 | that hex is two lower-case digits a byte, high half first |
| `Store.FileHandler.NewFile` | TcpServer/file_handler.py:81-89 | the entry at the full path is replaced, whoever's it was, and hashed; a missing content raises after the replacement |
| `Store.FileHandler.Verified` | TcpServer/file_handler.py:110-119 | the flag is set and, if true and the file opens, the content is in the file that the path leads to |
| `Store.FileHandler.SaveFile` | TcpServer/file_handler.py:49-69 | a file that opens is truncated and then holds the content, if there is one; otherwise nothing changes |
| `Store.Database.StoreFileInDb` | TcpServer/database.py:142-172 | the new tables and checksum for a new, an own, a foreign and an undecryptable file; the entry at the full path is replaced in all four |
| `Store.Database.UpdateVerification` | TcpServer/database.py:106-124 | row and entry are updated together, and the file if it opens; without row or entry nothing is |
| `Store.Database.GetFile` | TcpServer/database.py:126-139 | the entry at the full path, exactly when the row belongs to the asking client and the dictionary has the path |
| `Store.FreeNameInserts` | TcpServer/database.py:83-92 | inserting a client keeps names unique if and only if the check of the name finds it free |
| `Store.StoreFileInvariant` | TcpServer/database.py:142-172 | storing keeps the store invariant if and only if the entry at the full path is no other row's verified one and, without a content, no row's |
| `Store.VerifyInvariant` | TcpServer/database.py:106-124 | approval keeps the store invariant if and only if rows on its path are verified and verified rows in its file agree, and the file opens or holds the content already; it succeeds exactly for the owner |
| `Store.StoreThenVerify` | TcpServer/database.py:106-172 | a checksum is announced exactly when the sender owns the row; an approval then puts that very content in the file, if it opens, and the disk had not moved before |
| `Store.AbsoluteNameBreaks` | TcpServer/file_handler.py:81-89 | an absolute name verified by one client and sent by another is refused by the table and still breaks the invariant |
| `Store.UnopenedBreaks` | TcpServer/file_handler.py:110-119 | approving a file that does not open succeeds, writes nothing and breaks the invariant |
| `Server.Server.HandleRegistrationRequest` | TcpServer/server.py:115-144 | the new tables, answers and outcome of a registration, with each refusal |
| `Server.Server.HandlePublicKeyRequest` | TcpServer/server.py:146-173 | the same for a public key, raising for one that can not wrap |
| `Server.Server.HandleSendFileRequest` | TcpServer/server.py:176-202 | the same for a file, unpacked from the packet and the connection behind it: rejected, spinning, or stored and answered, with checksum 0 when it was not stored |
| `Server.Server.HandleCrcValidRequest` | TcpServer/server.py:205-222 | the same for an approval |
| `Server.Server.HandleInvalidCrcResendRequest` | TcpServer/server.py:224-248 | the same for a repeated request, where a missing file is answered with an empty 2103 |
| `Server.Server.HandleRequest` | TcpServer/server.py:47-72 | one turn of the read loop on any packet: the responses written, listed case by case (two 2101 for a taken name, an unknown id or a rejected body, an empty 2103 and a 2101 for a file that is not the sender's, one 2101 for an unknown code), and tables and disk as they are left |
| `Server.PacketsAreRequests` | TcpServer/server.py:47-72 | the packets the client writes for a request, whatever fills them up, are handled as that request, and the server goes on at the next message unless it rejected a file's body |
| `Server.CutPacketsSpin` | TcpServer/protocol.py:158-164 | a file's packets that break off after the first leave the read loop for ever inside the handler |
| `Server.CrashesExactly` | TcpServer/server.py:146-274 | a handler raises if and only if the request is an abort, a key of a known client that can not wrap, or a repeated request for an own file without content |
| `Server.HandleInvariant` | TcpServer/server.py:115-274 | a request keeps the store invariant if and only if it is a file that may replace the entry at its path, an approval that agrees with the other rows and files, or any other request |
| `Server.PlainHarmless` | TcpServer/server.py:176-222 | among plain file names that fails exactly for an undecryptable body for a file its sender already has |
| `Server.DiskMovesOnApproval` | TcpServer/server.py:205-222 | the disk changes only by an approval whose file opens, in the file the approved path leads to, to the stored content |
| `Client.ClientLogic.AddMessageToQueue` | TcpClient/ClientLogic.cpp:167-176 | the message joins the queue and its front is sent |
| `Client.ClientLogic.HandleRegistrationApproved` | TcpClient/ClientLogic.cpp:96-118 | the queue is popped, an unset id is set, the public key goes out under it |
| `Client.ClientLogic.HandleRegistrationFailed` | TcpClient/ClientLogic.cpp:269-283 | the front is sent again while attempts last, then the client ends |
| `Client.ClientLogic.HandleSymmetricKey` | TcpClient/ClientLogic.cpp:144-228 | the padded file is hashed, encrypted and sent past the queue |
| `Client.ClientLogic.HandleMessageReceivedWithCrc` | TcpClient/ClientLogic.cpp:285-343 | the checksum loop with its reads comes to what receiving those messages one by one comes to, and waits on only when nothing is left to read |
| `Client.FirstMessage` | TcpClient/ClientLogic.cpp:363-367 | an unregistered client first sends its name under an id of zeros, a registered one its public key under its own id |
| `Client.ApprovalAnswered` | TcpClient/ClientLogic.cpp:96-118 | an approval sets an unset id, and the public key goes out under it |
| `Client.KeyAnswered` | TcpClient/ClientLogic.cpp:144-228 | the key is answered with the padded file under the unwrapped key, and the padded file's checksum is kept |
| `Client.FailureAnswered` | TcpClient/ClientLogic.cpp:269-283 | a failure sends the front of the queue again, or with no attempts left drops it and ends the client |
| `Client.ChecksumAnswered` | TcpClient/ClientLogic.cpp:285-343 | the first checksum is approved, or answered with a request to resend, or with three mismatches counted with the abort |
| `Client.OtherCodeRechecked` | TcpClient/ClientLogic.cpp:308-341 | inside the checksum loop another message is answered with a request to resend and counts for nothing |
| `Client.EndsExactly` | TcpClient/ClientLogic.cpp:269-343 | outside the loop a message ends the client if and only if it is the final approval, a failure with no attempts left, or a mismatch with three counted |
| `Client.RetryBudget` | TcpClient/ClientLogic.cpp:269-283 | a message that fails n times is sent again min(n, attempts) times, and one failure more ends the client |
| `Client.FreshRetries` | TcpClient/ClientLogic.cpp:269-283 | a first message that fails goes out three more times, and a fourth failure ends the client |
| `Client.RecheckMismatches` | TcpClient/ClientLogic.cpp:308-341 | inside the loop every mismatch but the last is answered with a request to resend, the last with the abort |
| `Client.VerdictTranscript` | TcpClient/ClientLogic.cpp:288-341 | whatever the checksums, up to three mismatches and a match give that many 1105 and then 1104, a fourth mismatch gives three 1105 and then 1106: never both verdicts |
| `Client.ChecksumPhase` | TcpServer/server.py:224-248 | against this server there are two outcomes: 1104 at once, which writes the stored content if the file opens, or exactly three 1105 and 1106, which change nothing |
| `Session.ExchangeOnce` | TcpServer/server.py:47-95 | one round trip over packets is one request handled and its response received, for messages that fit their layouts |
| `Session.WholeSession` | TcpClient/ClientLogic.cpp:356-386 | over packets and any filler, a new client with a file of at most 720 bytes or more than 1008 sends exactly its name, its key, its file and the approval; it has a row with its keys, and the file and its zeros are on disk, if it opens there; any other file is refused with the disk unchanged |
| `Session.RegisteredSession` | TcpClient/ClientLogic.cpp:363-367 | a registered client with such a file sends exactly three messages, 1101, 1102 and 1104, all under its own id; no client is added, its keys are replaced, and the file and its zeros are on disk, if it opens there |
| `Session.ConflictingName` | TcpServer/server.py:197-202 | for a name owned by another client the announced checksum is 0, approved exactly when the client's own is 0, as for an empty file; the approval is refused |
| `Session.UndecryptableTruncates` | TcpServer/file_handler.py:49-56 | an undecryptable body for an own file leaves its row as it was, and an approval then empties the file on disk |
| `System.MutexKept` | TcpServer/server.py:47-112 | every step keeps the lock's discipline and leaves the lock with its holder, or its holder releases it, or it was free and goes to the waiting connection |
| `System.DeliverTalks` | TcpClient/ClientLogic.cpp:58-68 | after each response a client in a live session has at most one request in flight, the one its state calls for |
| `System.StoreVouches` | TcpServer/server.py:197-202 | the announced checksum is that of what the tables hold for the sender's path, or 0 when it is not the sender's |
| `System.InvKept` | TcpServer/server.py:47-112 | each of the twelve kinds of step keeps mutual exclusion, the conversation of every live session, and the record of writes |
| `System.MutualExclusion` | TcpServer/server.py:97-112 | in every reachable state of every interleaving at most one thread is inside the read loop |
| `System.NamesStayUnique` | TcpServer/server.py:127-144 | check-then-insert never yields two clients of one name, in every run |
| `System.DiskIsReplay` | TcpServer/file_handler.py:49-56 | the record of writes accounts for everything on disk |
| `System.OnlyMatchingContentIsWritten` | TcpServer/server.py:205-222 | in every run, what the disk gained was written in the file of a client's own path, in a session whose client holds the checksum it computed for the file it was to send, and that is the checksum of the content |
| `System.BurstNeverWritten` | TcpServer/file_handler.py:110-119 | in every run, content that differs from the client's padded file only within 32 consecutive bits is never written |
| `System.BurstNeverApproved` | TcpClient/ClientLogic.cpp:298-305 | in every run, no 1104 is in flight while the tables hold such a content for its sender |
| `System.LockHasHolder` | TcpServer/server.py:69-109 | in every reachable state the lock is taken if and only if some thread is in the loop, on its way in, or lost |
| `System.LostExactly` | TcpServer/server.py:252-274 | a step loses a thread if and only if it serves a request whose handler raises, or the client closes inside a file |
| `System.NothingServedAfterLoss` | TcpServer/server.py:252-274 | once a thread is lost, the lock is held in every later state and no thread is in the read loop again |
| `Runs.NewClientRuns` | TcpServer/server.py:97-112 | from any idle state there is a run in which a new client connects, gets the lock and a thread, registers, sends its file and has it written; then the lock is free and nothing else has moved |
| `Runs.RegisteredClientRuns` | TcpServer/server.py:97-112 | the same for a registered client |
| `Runs.CorruptedRuns` | TcpClient/ClientLogic.cpp:288-341 | for every corruption of whole blocks that shows in the checksum there is a run: wrong content stored, three futile requests, the abort, nothing written, the thread dead with the lock |
| `StoreSafety.FileFollowsKey` | TcpClient/ClientLogic.cpp:144-163 | a client in conversation sends a file only on reading a key, under its own id, in whole blocks |
| `StoreSafety.StoreKept` | TcpServer/server.py:47-72 | in a live conversation with keys in place and plain names every step keeps the store invariant |
| `StoreSafety.StoreOkInEveryRun` | TcpServer/database.py:106-172 | in every run of clients with plain file names in which corruption leaves whole blocks, each row agrees with its entry, the checksum is that of the content, and a verified content is what is on disk |
| `Asn.LengthRoundTrip` | libs/cryptopp/include/cryptopp/asn.h:841-843 | short and long form lengths (X.690 section 8.1.3) decode to what was encoded |
| `Asn.LengthForms` | libs/cryptopp/include/cryptopp/asn.h:841-843 | one octet below 128, else 128 plus the count of the shortest big-endian octets (X.690 section 8.1.3) |
| `Asn.WordBytesValue` | libs/cryptopp/include/cryptopp/asn.h:831-833 | the bytes written most significant first are the word, at any width |
| `Asn.TwoOctets` | libs/cryptopp/include/cryptopp/asn.h:831-833 | two octets, the more significant first |
| `Asn.ContentLength` | libs/cryptopp/include/cryptopp/asn.h:834-838 | dropping zeros and putting one back keeps the value and makes the content minimal |
| `Asn.DerEncodeUnsigned` | libs/cryptopp/include/cryptopp/asn.h:819-845 | the output is tag, length and minimal content of the value (one octet for BOOLEAN), and its size is returned |
| `Asn.MinimalIsShortest` | libs/cryptopp/include/cryptopp/asn.h:834-838 | no content with a clear sign bit and the same value is shorter, and a minimal one is unique (X.690 section 8.3.2) |
| `Asn.BerDecodeUnsigned` | libs/cryptopp/include/cryptopp/asn.h:856-899 | a content is accepted exactly when its big-endian value fits the word and the range, whatever its leading zeros, and that value is returned |
| `Asn.ContentAccepted` | libs/cryptopp/include/cryptopp/asn.h:856-899 | any content with its tag and length is decoded to its value: one octet for tag 1, at least one for tags 2 and 10, a value in the word and the range; else refused |
| `Asn.Malformed` | libs/cryptopp/include/cryptopp/asn.h:856-870 | another tag, no length, the indefinite length, and a length or content cut short are refused |
| `Asn.DecodeEncoded` | libs/cryptopp/include/cryptopp/asn.h:819-899 | decoding an encoding returns the value at any width if and only if it is in the range and, for BOOLEAN, is 0 or 255 |
| `Shuffle.ShuffleInPlace` | libs/cryptopp/include/cryptopp/cryptlib.h:1510-1515 | the swaps in place leave the order that the draws determine |
| `Shuffle.FirstDrawn` | libs/cryptopp/include/cryptopp/cryptlib.h:1510-1515 | the first place gets the element drawn, whose place the first element takes; the rest is shuffled with the later draws |
| `Shuffle.AlwaysPermutation` | libs/cryptopp/include/cryptopp/cryptlib.h:1510-1515 | whatever is drawn, the result is a permutation |
| `Shuffle.DrawsDetermined` | libs/cryptopp/include/cryptopp/cryptlib.h:1510-1515 | on distinct elements different draws give different orders |
| `Shuffle.EveryOrderReached` | libs/cryptopp/include/cryptopp/cryptlib.h:1510-1515 | up to 2^32 elements every order is produced by draws that are computed from it |
| `Shuffle.UniformUpToWord32` | libs/cryptopp/include/cryptopp/cryptlib.h:1507-1515 | every order of distinct elements is reached if and only if there are at most 2^32 of them |
| `Encodings.DecodeEncode` | TcpClient/StringWrapper.cpp:4-27 | Base64 decoding, lines or not and white space around, gives the encoded bytes back |
| `Encodings.Alphabet` | TcpClient/StringWrapper.cpp:4-14 | the Base64 alphabet, letter by letter |
| `Encodings.TestVectors` | TcpClient/StringWrapper.cpp:4-14 | "foobar", "fo" and "f" as RFC 4648 section 10 has them |
| `Encodings.LineBreaks` | TcpClient/StringWrapper.cpp:4-14 | a newline after every 72 letters and at the end |
| `Encodings.TrimStrips` | TcpClient/ConfigManager.cpp:52-52 | trimming takes the white space off both ends and nothing else |
| `Encodings.UnhexHex` | TcpClient/StringWrapper.cpp:29-57 | unhex undoes hex |
| `Encodings.HexDigits` | TcpClient/StringWrapper.cpp:29-44 | two upper-case digits a byte, high half first |
| `Encodings.HexReads` | TcpClient/StringWrapper.cpp:50-62 | digits of both cases are read, nothing else is |
| `LineEditor.FileHandler.WriteAtLine` | TcpClient/FileHandler.cpp:28-68 | the file becomes its edited lines, each with a newline; without a file nothing happens |
| `LineEditor.FileHandler.ReadAround` | TcpClient/FileHandler.cpp:42-49 | the getline loop, with its stream states, comes to the edited lines |
| `LineEditor.OtherLinesKept` | TcpClient/FileHandler.cpp:42-49 | the content stands after the non-empty lines up to its number and all others are kept in order, if and only if the file ends in a newline or has that line |
| `LineEditor.LinesOfWritten` | TcpClient/FileHandler.cpp:54-58 | reading back what was written gives the same lines |
| `Registration.ConfigManager.GetClientName` | TcpClient/ConfigManager.cpp:45-58 | the trimmed name is taken when it is shorter than 100 |
| `Registration.ConfigManager.CreateRegistrationFile` | TcpClient/ConfigManager.cpp:143-157 | the file holds the configured name |
| `Registration.ConfigManager.SetClientsUuid` | TcpClient/ConfigManager.cpp:63-69 | the encoded id is inserted after line 1, the id in memory stays hex |
| `Registration.ConfigManager.SetClientsPrivateKey` | TcpClient/ConfigManager.cpp:71-78 | the encoded key is inserted after line 2 |
| `Registration.ConfigManager.IsRegistered` | TcpClient/ConfigManager.cpp:159-231 | a missing file is created; an existing one is loaded name first, then id, then key, stopping at the first that fails |
| `Registration.RegistrationRoundTrip` | TcpClient/ConfigManager.cpp:63-231 | creating the file, adding id and key and loading returns the name, the 16-byte id and the key, if and only if the name is not blank |
| `Registration.SavedBytes` | TcpClient/ConfigManager.cpp:63-78 | the whole file byte by byte: name, id in hex and Base64, key in Base64, each with a newline |
| `Registration.NameLimits` | TcpClient/ConfigManager.cpp:45-58 | a file loads if its trimmed name has at most 100 characters, the settings take at most 99 |
| `Registration.LoadExactly` | TcpClient/ConfigManager.cpp:159-231 | any file of two lines and a rest loads if and only if the name is there and has at most 100 characters, the id decodes to 16 bytes and there is a key; what was checked before a failure is kept |
| `Registration.NameAloneIsUnregistered` | TcpClient/ConfigManager.cpp:205-229 | a file with the name alone, from a registration cut short, does not load |

## Left out

- Altivec templates of `adv_simd.h`: in counter mode they add 6 after four blocks, or carry differently from the tail loop; their other paths have the shape of the SSE templates.
- Overlaps that are not multiples of 16 bytes: addresses count blocks. A reversed run whose length is not a multiple of 16 starts from the first block it reaches.
- BlockProcessing.BatchedIsSerial: its condition is sufficient; for pointers that do not move (`BT_DontIncrementInOutPointers`) the exact one is `FixedPointers.FixedSafe`, since later stores on the one output block hide what earlier ones got wrong.
- ExactHazards.BatchesExactlySafe: for widths up to 128, where the templates use 2, 4 and 6; wider batches could bring the counter byte round.
- ExactFixedPointers.FixedExactlySafe: for lengths below 2^64 bytes, which is what a 64-bit `size_t` holds.
- The bodies behind `func6`, `func4`, `func2` and `func1` (blockwise E), `CBC_Mode_ExternalCipher`, `StreamTransformationFilter`, AES, RSA and key generation: any inverse pair, and SP 800-38A and RFC 5652 for the modes and the padding.
- `m_tab` (256 constants) and `DERLengthEncode`, `BERLengthDecode`, whose bodies are not in the repository: modelled as the division and by X.690 section 8.1.3. CRC state on big-endian machines.
- `Base64Encoder`, `Base64Decoder` and `boost::algorithm`: RFC 4648 section 4, lines of 72 each with its newline, characters outside the alphabet skipped; hex in upper case; trim of ASCII white space.
- Sockets, name resolution, SQLite and file I/O errors, logging, `LastSeen` and `touch`, CPU detection: sends are whole packets, commits and writes succeed, a channel delivers in order or closes. In the source a failing send is repeated for ever (`TcpServer/server.py:80-93`) and a `recv` that raises ends the thread (`TcpServer/server.py:51`), both with the lock held.
- UTF-8: names are compared as bytes and a name that is not valid UTF-8 is not rejected.
- The file system: which file a path leads to is any function, and whether it opens is free at every approval, except that a plain name (no slash, not `.` or `..`) opens in the client's directory. StoreSafety.StoreOkInEveryRun needs plain names to lead to different files, so no links. The server is taken to run in its own directory, where it makes the clients' directories.
- Server.Server.HandleRequest: the source's abort handler first looks up the client's name for its log; only its failure on the missing selector is modelled.
- Protocol.ResponseRoundTrip: exact for wrapped keys of at most 1001 bytes; a payload of 1018 to 1024 makes the client copy past its packet buffer, which `ClientRead` reports.
- Client.ClientLogic.HandleMessageReceivedWithCrc: popping an empty queue on 2103 or 2104, undefined in C++, is taken to leave it empty; every other use of an empty queue's front is a state of its own after which anything may be sent. A second id for a client that has one makes `isEmpty` throw and is not modelled.
- A client whose channel has failed can send nothing more, so handlers it runs again on a stale buffer, or the checksum loop that then spins, are one silent end.
- System.InvKept: runs are over whole requests, which `Server.PacketsAreRequests` justifies; a message of one packet arrives whole or not at all, and a request that can not be unpacked comes only from a client in the undefined state.
- Termination of the checksum loop needs delivery; `Client.ChecksumPhase` and `Session.WholeSession` therefore speak of delivered messages.
- Waiting for the lock: no fairness is claimed, only who holds it and when it is lost for ever (`System.LockHasHolder`, `System.LostExactly`).
- StoreSafety.StoreOkInEveryRun: starts from tables whose rows have entries; after a restart the dictionary is empty and rows of earlier times have none.
- `FileHandler.updateFile` is never called; `GetSocketParams`, `GetFileName` and `GetLine` only read the settings.
- The copies of the client's files in the repository root are the same code as `TcpClient/`.
- File sizes from 2^31 bytes, where the client's `int` count overflows.
