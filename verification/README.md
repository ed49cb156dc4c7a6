# Verified model of the game server's codecs, calendars and client drafts

The server is written in Go. These modules restate its most intricate computations in Dafny and prove what
they are for. One module stands for one source file or one part of it; where the Go code changes things step
by step the model is a class or a method with loops, proved equal to a function of its inputs, and the
properties are lemmas about those functions.

- **Files of the game** (`LzFormat`, `LzEncoder`, `LzDecoder`, `LzRoundTrip`, `LzTail`, `Jpk`, `JpkRoundTrip`,
  `Hfi`, `HuffmanWalks`, `HuffmanCodes`, `LzGreedy`, `LzItems`, over `ByteFrame`, `Bytes` and `Orbits`): the greedy LZ77 encoder
  with its lazily flushed flag groups, the decoder with its lazily refilled flag register, the Huffman decoder above it, which may
  loop for ever. What unpacking a packed file gives back is known exactly for every file, and so are the tokens that are chosen,
  their bits, and the bytes a Huffman-coded stream stands for.
- **The ECD container** (`Ecd`, `EcdStreams`, over `ExclusiveOr`): a nibble cipher with feedback whose eight mixing rounds
  are linear with a linear part of order three, which is why the encoder may start from the zero state. Every byte of a
  container is given by its index, its key word in closed form (`KeyStreams`).
- **The packet stream** (`PacketCipher`, `CipherStreams`, `CipherTables`, `CryptConn`, `Protocol`, `Wires`): the feedback cipher and its
  checksums, the framing, the two ends of a connection, every interleaving of sends and reads, and what is on the wire in each.
- **The quest calendar** (`Schedules`, `Catalogs`, `Calendars`, `Manifests`, `Sorting`, `Texts`): the point query and the
  enumeration of windows, proved to agree at every instant, and to say what the manifest says.
- **Publication** (`Bitsets`, `Publication`, `Documents`, `Collab`): the proofs of full coverage that let every location be
  answered alike; and the JSON text of the public document, which the cost budget keeps within 16 MiB.
- **Client data** (`Layout`, `RouteBanks`, `ClientDrafts`, `QuestInfos`, `StageBodies`, `QuestDrafts`, `QuestFinds`,
  `QuestTexts`): byte tables
  that are appended to and patched in place, so that parsing the result gives the old content and the new record;
  what the client then finds in them, and data for which that is not what one expects (`QuestExamples`,
  `RouteExamples`).
- **Key configuration** (`Keyconfig`): a one-pass automaton with counters, proved to accept exactly a grammar.
- **Quest licenses** (`Licenses`, `Offers`): a catalogue of rights, starters and offers that does not depend on the order of
  the document it is read from.
- **The warehouse** (`Warehouse`, `StoredBoxes`): the map-based merge of item stacks, equal to the nested loop it replaced, and the
  stored form of a box.

How things are represented: a byte is a number from 0 to 255, and fixed-width arithmetic is written out with
its wrap-around; a time is a whole number of nanoseconds since the Unix epoch, with a zone where its year
matters, and years are compared through the epoch's bounds of the years 1 and 9999; random numbers are the list of
what is drawn; a network
connection is the sequence of bytes on the wire; a CRC is a number given to the encoder; a Go map that is only
looked up is a `map`. Where Go sorts, the model sorts by insertion, and `Sorting.AnySortAgrees` shows that no
sort by the same order could give anything else.

Where the code does not do what its documentation says, the model follows the code:

- Packing and unpacking is not a round trip for every file. The last flag byte is dropped when no data byte is
  waiting behind it, even if it holds bits of a length (`common/decryption/jpk_compress.go:67`).
  `JpkRoundTrip.RoundTripIff` says exactly when the file survives, `JpkRoundTrip.AlternatingFails` gives a file
  that does not.
- Unpacking need not return when a Huffman table is cut off by the end of the file: `Hfi.TruncatedNeverReturns`
  is such a file. Whenever the table fits it returns, whatever the table holds (`Hfi.FittingReturns`);
  `HuffmanWalks.EndsIff` says of every walk, over any table, whether it ends.
- "Every pre-existing bank record keeps its bytes" (`common/mhfpallone/clientdraft.go:25`) is true only when
  the rewritten count lies outside the record; nothing in the code makes sure of it. `ClientDrafts.OthersKept`
  states the exact condition, `RouteExamples.Instance` gives data for which it fails.
- A restored quest list need not lead to the added records (`common/mhfpallone/clientdraft.go:191-276`), because a
  category's upper bound captures the IDs below it: an old record of the same quest is found instead, an old quest
  is hidden, or nothing is restored at all. `QuestFinds` states exactly when, `QuestExamples` gives a list and
  stage files for each.

## Model

| member | source | states |
|---|---|---|
| `JpkRoundTrip.UnpackAfterPack` | common/decryption/jpk_compress.go:42-128 | for every byte string shorter than 2^31, unpacking the packed form gives it back with its last `Lost(data)` bytes, at most fifteen, zeroed; `Lost` is read off the encoder's last, dropped flag byte; no index is out of bounds |
| `JpkRoundTrip.RoundTripIff` | common/decryption/jpk_compress.go:66-73 | the round trip succeeds if and only if the bytes that are lost were zeros |
| `JpkRoundTrip.RoundTripWhole` | common/decryption/jpk_compress.go:66-73 | it succeeds when the last flag group still holds a data byte or its flag bits are all zero |
| `JpkRoundTrip.AlternatingFails` | common/decryption/jpk_compress.go:67 | "ababababababa" comes back with a wrong last letter, so the guard is needed |
| `JpkRoundTrip.NoLongerMatch` | common/decryption/jpk_compress.go:133-169 | no stretch of the window that repeats at the position, within the length limit, is longer than the match found, and of equally long ones the farthest is taken |
| `LzGreedy.GreedyBest` | common/decryption/jpk_compress.go:77-169 | the encoder's token list is the only one, as long as the data, on which every token is best at its place: a letter only where no stretch of 3 to 280 bytes repeats one that begins within the last 768, and else the longest such stretch, the farthest of equals |
| `LzGreedy.TwicePacked` | common/decryption/jpk_compress.go:42-128 | "abcabc" packs to the flag byte 0x10, its three letters and the offset 2 |
| `LzItems.ShortForms` | common/decryption/jpk_compress.go:88-96 | bit by bit: a letter behind a clear bit, and a short match with its two length bits and its offset byte |
| `LzItems.LongForms` | common/decryption/jpk_compress.go:97-122 | bit by bit: a long match, whose length up to 9 shares two bytes with the offset, up to 25 has four bits, and beyond that a byte |
| `LzItems.RawStep` | common/decryption/jpk.go:84-101 | three set bits around an offset and the byte 0xFF announce a raw run of the offset plus 27 bytes, which one step of the decoder appends as they are |
| `JpkRoundTrip.HeaderIs` | common/decryption/jpk_compress.go:7-18 | the sixteen bytes of a header |
| `JpkRoundTrip.WrappedIff` | common/decryption/jpk.go:32-50 | a negative start is a 64-bit cursor far behind the data; unpacking panics there if and only if its first read passes the bounds check because its end wraps |
| `LzEncoder.GreedyMatches` | common/decryption/jpk_compress.go:85-124 | for every data, every match the encoder chooses is of 3 to 280 bytes, from the last 768, and no byte of its length is above 254, so the 0xFF escape is never written |
| `LzTail.EncodedWhole` | common/decryption/jpk_compress.go:66-73 | with a data byte pending at the end, the output is the complete layout of all flag bits and data bytes |
| `LzTail.DroppedTail` | common/decryption/jpk_compress.go:66-73 | without one, the output followed by a zero flag byte is the layout of a token list that spells the data without its lost tail |
| `LzEncoder.LzEncode` | common/decryption/jpk_compress.go:77-128 | the greedy loop writes exactly the encoding of the greedy token list |
| `LzEncoder.GreedySpells` | common/decryption/jpk_compress.go:81-125 | the tokens the greedy loop chooses spell the data, from every position |
| `LzEncoder.Encoder.EncodeAt` | common/decryption/jpk_compress.go:82-125 | one turn of the loop writes one token, of the chosen form, and moves on by its size |
| `LzEncoder.Encoder.WriteMatch` | common/decryption/jpk_compress.go:88-122 | a match is written in exactly one of the four back-reference forms |
| `LzEncoder.Encoder.SetFlag` | common/decryption/jpk_compress.go:42-52 | a flag bit starts a new group when the last one is full, and else goes into the next lower bit |
| `LzEncoder.Encoder.SetFlagsReverse` | common/decryption/jpk_compress.go:55-59 | count bits, most significant first |
| `LzEncoder.Encoder.WriteByte` | common/decryption/jpk_compress.go:61-64 | a data byte waits behind its flag byte |
| `LzEncoder.Encoder.FlushFlag` | common/decryption/jpk_compress.go:66-73 | the group is written out; the last one only if it holds a data byte |
| `LzEncoder.TokenKeepsBounded` | common/decryption/jpk_compress.go:61-64 | at no time while a token is written, event by event, does a group hold more than nine data bytes |
| `LzEncoder.GroupsBounded` | common/decryption/jpk_compress.go:61-64 | nor at any time of any run of the encoder, far under the 1024 of toWrite |
| `LzEncoder.LzLongestRepetition` | common/decryption/jpk_compress.go:133-169 | the search loop, with its early exits, returns the longest repetition of the window |
| `LzEncoder.LongestIsLongest` | common/decryption/jpk_compress.go:133-169 | that repetition is genuine, within the distance, and no start in the window repeats more bytes or as many nearer by |
| `LzEncoder.CommonLengthExact` | common/decryption/jpk_compress.go:154-158 | the common length is all that agrees, and stops only at the limit or at a difference |
| `Jpk.PackSimple` | common/decryption/jpk_compress.go:7-18 | the header and the encoded data |
| `Jpk.UnpackSimple` | common/decryption/jpk.go:23-55 | for every input on which the code returns: the header is read, the type chosen, and the buffer filled by the decoder of that type, or the code panics, as the decoder says |
| `Jpk.JPKCopy` | common/decryption/jpk.go:124-129 | an overlapping copy, byte by byte, each byte seeing those before it; fails exactly when it would leave the buffer |
| `Jpk.JpkState.BitShift` | common/decryption/jpk.go:111-120 | the next flag bit, refilling the flag register when it is empty |
| `Jpk.JpkState.DecodeToken` | common/decryption/jpk.go:68-105 | one turn of the decoding loop is one step of the decoder, for literals and all match forms |
| `Jpk.JpkState.ReadItem` | common/decryption/jpk.go:68-105 | what is read in front of a token: the literal, the offset and length in one of the four forms, or the raw-run escape |
| `Jpk.JpkState.CopyRaw` | common/decryption/jpk.go:94-99 | the raw run of the 0xFF escape |
| `Jpk.JpkState.ProcessDecode` | common/decryption/jpk.go:64-107 | the buffer is filled as the decoder says, on any input |
| `Jpk.HfiState.HuffmanBitShift` | common/decryption/jpk.go:155-171 | one bit of the Huffman stream |
| `Jpk.HfiState.ReadHFByte` | common/decryption/jpk.go:155-171 | one Huffman-coded byte: the walk from the root to a leaf, over any table on which it meets one |
| `Jpk.HfiState.HfiBitShift` | common/decryption/jpk.go:177-184 | one flag bit, from Huffman-coded flag bytes |
| `Jpk.HfiState.ReadItem` | common/decryption/jpk.go:198-237 | the same, from Huffman-coded bytes |
| `Jpk.HfiState.ProcessDecode` | common/decryption/jpk.go:190-238 | the table is located behind the header, the bit stream behind the table, and the buffer is filled as the decoder says, unless a walk never ends |
| `LzDecoder.WalkEnds` | common/decryption/jpk.go:155-171 | whatever the entries of a table that fits into the data, even cycles, every walk ends in a leaf, at the latest with the bit behind the last one |
| `HuffmanWalks.EndsIff` | common/decryption/jpk.go:155-171 | over any table, fitting or cut off, a walk ends if and only if it meets a leaf within a number of edges known in advance: the bits there are, or one edge for every state of the decoder |
| `HuffmanWalks.ReadsIff` | common/decryption/jpk.go:155-171 | so a byte is read if and only if that many edges lead to a leaf, and else the loop never ends |
| `Hfi.FittingReturns` | common/decryption/jpk.go:155-238 | unpacking returns whenever the table, if there is one, fits into the data |
| `Hfi.TruncatedNeverReturns` | common/decryption/jpk.go:155-198 | a container whose table is cut off, on which unpacking never returns: the first walk visits the root for ever |
| `Hfi.TableTiles` | common/decryption/jpk.go:142-149 | the entries of the table lie side by side, from its start to exactly the start of the bit stream |
| `Hfi.EntriesDisjoint` | common/decryption/jpk.go:142-149 | no two entries overlap |
| `Hfi.DecodedAbreast` | common/decryption/jpk.go:190-238 | the two decoders stay abreast: same output from any common state |
| `Hfi.HuffmanRefinesPlain` | common/decryption/jpk.go:190-238 | when the plain decoder fills the output from bytes that the Huffman stream yields, the Huffman decoder fills it with the same bytes |
| `Hfi.HuffmanDecodesEncoded` | common/decryption/jpk.go:190-238 | Huffman-coding the output of the encoder loses nothing when its last flag byte was kept |
| `HuffmanCodes.StreamStands` | common/decryption/jpk.go:155-171 | for every table and all bytes that have a path of left and right children in it, read at their table offsets: the bytes whose paths stand behind the table, most significant bit of each byte first, are exactly what the decoder yields |
| `HuffmanCodes.UnpackCoded` | common/decryption/jpk.go:40-49 | a container of header, root, table and the packed paths of the encoded data unpacks to the data, when the encoder kept its last flag byte |
| `HuffmanCodes.LetterUnpacks` | common/decryption/jpk.go:155-171 | such a container byte by byte, of one letter: a root with the leaves 0 and the letter, and the stream byte 0x40 |
| `LzRoundTrip.StepSpells` | common/decryption/jpk.go:68-105 | facing the layout of a token, one decoding step appends exactly what the token spells and faces the rest |
| `LzRoundTrip.ItemReads` | common/decryption/jpk.go:68-105 | facing the layout of a token, the decoder reads exactly that token, in whichever of the forms it is laid out |
| `LzRoundTrip.DecodedSpells` | common/decryption/jpk.go:64-107 | decoding the layout of a token list gives the data it spells |
| `LzRoundTrip.InputLeft` | common/decryption/jpk.go:67 | while something is left to decode the decoder's loop guard sees input left |
| `ByteFrame.Buffer.Grow` | common/byteframe/byteframe.go:56-67 | growing keeps the content and always makes room for the write |
| `ByteFrame.Buffer.WriteBytes` | common/byteframe/byteframe.go:248-252 | a write puts its bytes at the cursor, growing when needed, and moves the cursor and the used size |
| `ByteFrame.Buffer.WriteUint8` | common/byteframe/byteframe.go:166-170 | one byte |
| `ByteFrame.Buffer.WriteUint16` | common/byteframe/byteframe.go:183-187 | two bytes in the current byte order |
| `ByteFrame.Buffer.WriteUint32` | common/byteframe/byteframe.go:190-194 | four bytes in the current byte order |
| `ByteFrame.Buffer.ReadBytes` | common/byteframe/byteframe.go:409-420 | the next bytes, or nothing and the error once they are not there |
| `ByteFrame.Buffer.ReadUint8` | common/byteframe/byteframe.go:261-272 | the next byte, or zero and the error |
| `ByteFrame.Buffer.ReadUint16` | common/byteframe/byteframe.go:283-294 | two bytes in the current byte order, or zero and the error |
| `ByteFrame.Buffer.ReadUint32` | common/byteframe/byteframe.go:297-308 | four bytes in the current byte order, or zero and the error |
| `ByteFrame.Buffer.ReadInt16` | common/byteframe/byteframe.go:339-350 | the same, signed |
| `ByteFrame.Buffer.ReadInt32` | common/byteframe/byteframe.go:353-364 | the same, signed |
| `ByteFrame.Buffer.SeekFromStart` | common/byteframe/byteframe.go:111-138 | moves the cursor within the used bytes, and nowhere otherwise |
| `ByteFrame.Buffer.SeekFromCurrent` | common/byteframe/byteframe.go:111-138 | the same, relative to the cursor |
| `ByteFrame.PutOverwrites` | common/byteframe/byteframe.go:77-85 | a write before the end replaces exactly the bytes it covers |
| `ByteFrame.PutAtEnd` | common/byteframe/byteframe.go:77-85 | a write at the end appends |
| `ByteFrame.WritesReadBack` | common/byteframe/byteframe.go:166-420 | any sequence of typed writes in either byte order, read back from the start with the same types, gives the same values without error |
| `ByteFrame.ErrorIsSticky` | common/byteframe/byteframe.go:88-103 | after the first overread every read returns zero and moves nothing |
| `ByteFrame.OneBeyond` | common/byteframe/byteframe.go:88-93 | reads are bounded by one byte more than was written: behind a single byte a second one reads as zero, and a third fails |
| `Bytes.EncodeFour` | common/byteframe/byteframe.go:183-194 | the four bytes of a number in each order |
| `Bytes.DecodeEncode` | common/byteframe/byteframe.go:183-194 | a number that fits is read back from its bytes in either order |
| `Ecd.RoundsSuperpose` | common/decryption/ecd.go:95-100 | the mixing rounds are linear: from any state they are the rounds from the zero state, exclusive-or the rotated difference |
| `Ecd.ThreeTurns` | common/decryption/ecd.go:95-100 | the linear part, (a, b) to (b, a xor b), has order three |
| `Ecd.EightRounds` | common/decryption/ecd.go:95-146 | eight rounds from any state are the zero-state rounds exclusive-or two turns of the state |
| `Ecd.ByteUndone` | common/decryption/ecd.go:90-158 | decoding undoes encoding for every byte, feedback byte and pad |
| `Ecd.StreamUndone` | common/decryption/ecd.go:86-159 | the two key streams and feedback bytes stay equal at every index, so the whole payload comes back |
| `Ecd.EncodeECD` | common/decryption/ecd.go:112-162 | the loop computes the container, or refuses an invalid key |
| `Ecd.DecodeECD` | common/decryption/ecd.go:58-107 | the loop opens the container, with every error of the header |
| `Ecd.ContainerRoundTrip` | common/decryption/ecd.go:58-162 | opening the container of any data shorter than 2^32 bytes, under any of the six keys and any checksum, gives the data |
| `EcdStreams.ThreeRounds` | common/decryption/ecd.go:95-100 | three rounds from any state mix two key bytes into each register and leave the registers where they were |
| `EcdStreams.ZeroRounds` | common/decryption/ecd.go:135-146 | eight rounds from zero are the exclusive or of the key bytes of five of the rounds in the one register and of six in the other |
| `EcdStreams.PayloadAt` | common/decryption/ecd.go:46-162 | every byte of a payload by its index: its digits mixed with those key bytes of its word of the key stream, the word in closed form, and with the byte before it |
| `EcdStreams.ContainerHeader` | common/decryption/ecd.go:120-125 | the sixteen bytes in front of it |
| `KeyStreams.TermNext` | common/decryption/ecd.go:46-51 | the closed form of a linear congruential stream: m^n s + c (1 + m + ... + m^(n-1)), modulo 2^32 |
| `ExclusiveOr.XorAssociates` | common/decryption/ecd.go:95-100 | exclusive or is associative, the law the linearity of the rounds rests on |
| `ExclusiveOr.XorUndone` | common/decryption/ecd.go:148-156 | and undoes itself |
| `PacketCipher.EncryptLoop` | network/crypto/crypto.go:22-38 | the encrypting loop computes the run of the feedback cipher |
| `PacketCipher.DecryptLoop` | network/crypto/crypto.go:39-57 | the decrypting loop computes the inverse run |
| `PacketCipher.Crypto` | network/crypto/crypto.go:11-66 | the output bytes and the four checksums, in both directions and with an overriding key |
| `PacketCipher.StepUndone` | network/crypto/crypto.go:22-57 | one decrypting step undoes one encrypting step and leaves the same state: key, feedback and all three accumulators |
| `PacketCipher.RunUndone` | network/crypto/crypto.go:22-57 | and so does a run, from any index |
| `PacketCipher.DecryptsEncrypted` | network/crypto/crypto.go:11-66 | decrypting with the same key returns the data and exactly the checksums of the encryption |
| `CipherStreams.EncryptedAt` | network/crypto/crypto.go:11-38 | every byte of an encrypted packet by its index: the substituted exclusive or of plain byte and key byte, the key in closed form, under the byte that the plain byte before it selects |
| `CipherStreams.ChecksAre` | network/crypto/crypto.go:22-66 | the four checks from three sums over the bytes, modulo 2^32: substituted bytes shifted by their index modulo 8, indices, and products of neighbours |
| `CipherTables.TablesInvert` | network/crypto/crypto.go:4-6 | the decrypting table inverts the encrypting table at all 256 indices |
| `CipherTables.GameTablesInvert` | network/crypto/crypto.go:4-6 | so the game's tables satisfy what the round trip needs |
| `CryptConn.HeaderFields` | network/crypt_packet.go:70-90 | every field in its place on the wire, big-endian |
| `CryptConn.HeaderRoundTrip` | network/crypt_packet.go:27-90 | parsing an encoded header gives the header |
| `CryptConn.SizeRecovered` | network/crypt_conn.go:73-84 | the body size recovered from Pf0 and DataSize is the size modulo the mode's limit, so it is exact if and only if the size is below 2^20, or 2^16 in the older modes |
| `CryptConn.CryptConn.constructor` | network/crypt_conn.go:43-55 | both ends start with the same key and no packet behind them |
| `CryptConn.CryptConn.SendPacket` | network/crypt_conn.go:136-169 | appends the frame to the wire and rotates the key |
| `CryptConn.CryptConn.ReadPacket` | network/crypt_conn.go:58-133 | takes one frame off the wire: packet, short read, oversize and mismatch, and the state after each |
| `CryptConn.CryptConn.Open` | network/crypt_conn.go:90-133 | rotates the key when the header says so, decrypts and checks |
| `CryptConn.CryptConn.BruteForce` | network/crypt_conn.go:113-128 | the first of the single-byte keys 0..254 whose checksums match, if any; what it returns is told apart from a packet that matched at once |
| `Protocol.ReceivesSent` | network/crypt_conn.go:58-169 | with the keys in step a frame below the size limit is read back as its payload, its checksums matching at once, whatever is queued behind it, and the keys are in step again |
| `Protocol.MatchedDirectly` | network/crypt_conn.go:90-132 | a packet is returned as such exactly when decrypting with the rotated key gave the header's checksums |
| `Protocol.DeliveredIff` | network/crypt_conn.go:58-169 | with the keys in step a payload arrives intact if and only if it is below the size limit; above it not even key recovery returns it |
| `Protocol.GameLineFaithful` | network/crypt_conn.go:58-169 | the connection's send and receive are a faithful line |
| `Protocol.SendKeeps` | network/crypt_conn.go:136-169 | sending keeps sender, wire and reader in step |
| `Protocol.ReadKeeps` | network/crypt_conn.go:58-133 | reading keeps them in step and returns the next payload, never an error and never through key recovery |
| `Protocol.EmptyWire` | network/crypt_conn.go:58-169 | an empty wire means that everything was read and both ends hold the same key and combined check |
| `Protocol.EveryRun` | network/crypt_conn.go:58-169 | every interleaving of sends and reads at two ends of a faithful line stays synchronised and in order, without a failed read or a mismatch |
| `Protocol.EverySession` | network/crypt_conn.go:58-169 | in every interleaving of the game's sends below the limit and reads, at both ends, no read fails or takes the mismatch path, each end has read a prefix of what the other sent, and on an empty wire all of it, with keys and combined checks equal |
| `Protocol.ReadsDeliver` | network/crypt_conn.go:58-133 | nothing is stuck: as many reads as there are unread payloads deliver them all and empty the wire |
| `Wires.EveryFront` | network/crypt_conn.go:58-169 | in every run, at both ends, a wire that is not empty begins with the frame of the first payload not yet read, field by field: its number, the checks under its own key, its size, and as previous check the combined check of the payload read last, zero for the first |
| `Wires.ChecksChain` | network/crypt_conn.go:146-167 | so the previous check in front of a reader is always the one it keeps, and the packet number how many payloads it has read |
| `Wires.SenderIs` | network/crypt_conn.go:136-169 | the key, the packet number and the kept check of a sender from the payloads alone |
| `Wires.KeyNext` | network/crypt_conn.go:137-141 | the key after n packets in closed form: 3^n times the first key plus (3^(n+1) - 3) / 2 |
| `Schedules.ParseSchedule` | common/questdelivery/catalog.go:292-341 | accepted are exactly the permanent, one-time and periodic schedules with readable times that lie, each in its own zone, inside the calendar |
| `Schedules.ParsedRuns` | common/questdelivery/catalog.go:292-431 | from the entry alone: an accepted periodic entry is active exactly when for some k at least 0 the instant lies in the active_hours hours from start plus k times repeat_hours hours on, and before its end; a one-time entry within its span; a permanent one always |
| `Schedules.ParsedWindows` | common/questdelivery/catalog.go:292-576 | and its windows in a range are exactly those cycles that meet the range, clipped by the end |
| `Schedules.ElapsedIsFloor` | common/questdelivery/catalog.go:433-439 | the elapsed whole seconds are the floor of the difference, before and after the start |
| `Schedules.ActiveIffInCycle` | common/questdelivery/catalog.go:417-431 | a periodic schedule is active exactly in its cycles, at nanosecond precision, before its own end |
| `Schedules.Windows` | common/questdelivery/catalog.go:538-576 | the loop returns the windows, or the error, that the cycles define |
| `Schedules.CyclesOrdered` | common/questdelivery/catalog.go:552-575 | the windows are strictly ordered and disjoint, and each is a cycle clipped only by the schedule's end |
| `Schedules.CyclesComplete` | common/questdelivery/catalog.go:552-575 | every active instant of the range lies in one of them |
| `Schedules.FirstCycleNotLate` | common/questdelivery/catalog.go:548-551 | starting at the cycle of the range's start misses no later instant |
| `Schedules.PeriodicAgrees` | common/questdelivery/catalog.go:538-576 | for periodic schedules the windows hold exactly the active instants of the range |
| `Schedules.WindowsAgree` | common/questdelivery/catalog.go:417-576 | for every schedule they do, and they are ordered and meet the range |
| `Schedules.WindowsFit` | common/questdelivery/catalog.go:538-576 | listing succeeds exactly when no cycle that would be listed leaves the calendar and they are not too many |
| `Catalogs.MatchesProfile` | common/questdelivery/catalog.go:395-415 | the loops decide whether a profile lists the location |
| `Catalogs.AllowsQuest` | common/questdelivery/catalog.go:379-393 | managed, and allowed when enabled, active and listed |
| `Catalogs.WeighRow` | common/questdelivery/catalog.go:491-499 | the weight of a quest's row, or a refusal exactly when it exceeds the limit |
| `Catalogs.DivideFirst` | common/questdelivery/catalog.go:500-503 | dividing the room left by the row count is the exact test of the product, so a product that is formed is never above the limit |
| `Catalogs.Charge` | common/questdelivery/catalog.go:487-505 | rows and nested elements are admitted exactly when their exact sums fit |
| `Catalogs.LookUp` | common/questdelivery/catalog.go:478-486 | each schedule is expanded once; the cache always holds what expansion would give |
| `Catalogs.CountRows` | common/questdelivery/catalog.go:470-506 | the first pass succeeds exactly when the calendar is exportable |
| `Catalogs.CopyRows` | common/questdelivery/catalog.go:513-524 | the rows of one quest, with its profiles copied |
| `Catalogs.Windows` | common/questdelivery/catalog.go:461-536 | the calendar of a range, if and only if both times lie, each in its own zone, inside the calendar, and range and size allow it |
| `Catalogs.KeyUnique` | common/questdelivery/catalog.go:526-534 | no two rows agree in start and quest, so the sort key is unique |
| `Catalogs.CalendarOrdered` | common/questdelivery/catalog.go:526-534 | the calendar is in strict order, has exactly the expanded rows, and is what every other correct sort would give |
| `Catalogs.CalendarAgrees` | common/questdelivery/catalog.go:379-536 | for every quest, world, channel and instant of the range, the point query allows the quest if and only if a returned occurrence of it contains the instant and lists a matching profile |
| `Calendars.CalendarSorted` | common/questdelivery/catalog.go:526-534 | rows stand by start, and by quest number where they start together |
| `Calendars.ElementsAre` | common/questdelivery/catalog.go:487-505 | what is charged is the number of requirements, profiles, worlds and channels nested in the rows |
| `Calendars.ExportableIff` | common/questdelivery/catalog.go:461-511 | a calendar is exported if and only if its range is not empty and at most 366 days, all its windows can be listed, and it has at most 100000 rows with a million nested elements |
| `Manifests.ValidateProfile` | common/questdelivery/catalog.go:262-290 | one pass with seen-sets accepts exactly the well-formed profiles |
| `Manifests.ParseProfiles` | common/questdelivery/catalog.go:171-182 | all profiles, each stored under its own ID, if and only if all are valid and distinct |
| `Manifests.ParseSchedules` | common/questdelivery/catalog.go:183-195 | all schedules, as parsed, if and only if all are valid and distinct |
| `Manifests.ParseQuests` | common/questdelivery/catalog.go:196-237 | all quests, if and only if all are valid, distinct and refer to what exists |
| `Manifests.Parse` | common/questdelivery/catalog.go:142-244 | a manifest is accepted if and only if every rule holds, and the catalogue then holds exactly its entries |
| `Manifests.ReferencesResolve` | common/questdelivery/catalog.go:379-393 | in an accepted catalogue every reference of an enabled quest resolves, which the queries rely on |
| `Manifests.AllowsPublished` | common/questdelivery/catalog.go:142-431 | from the manifest alone: a quest is managed if and only if it has an entry, and allowed if and only if an enabled entry names a running schedule entry and a profile entry that lists the place |
| `Manifests.RowsTell` | common/questdelivery/catalog.go:142-536 | every row of a calendar shows what an enabled entry of the manifest says, for a window of its schedule entry |
| `Manifests.RowsWhole` | common/questdelivery/catalog.go:142-536 | and for every such window there is such a row |
| `Texts.TextBelowIff` | common/questdelivery/catalog.go:526-534 | strings are ordered by the first character in which they differ, a prefix before its extensions |
| `Sorting.AnySortAgrees` | common/questdelivery/catalog.go:526-534 | a sort by a linear order on distinct elements has only one result, so the sorting algorithm does not matter |
| `Bitsets.OrUnites` | common/questdelivery/common_publication.go:165-167 | the word-wise or is the union of the bits |
| `Bitsets.FullWord` | common/questdelivery/common_publication.go:130-133 | a word of n bits has n ones if and only if all its bits are set |
| `Bitsets.CountIsCoverage` | common/questdelivery/common_publication.go:170-176 | the ones of all words count n if and only if every one of the n members is in the set |
| `Bitsets.SetBit` | common/questdelivery/common_publication.go:127 | setting a bit adds exactly that member |
| `Bitsets.Unite` | common/questdelivery/common_publication.go:165-167 | the scratch set becomes the union |
| `Publication.Index` | common/questdelivery/common_publication.go:52-64 | the configured locations are indexed by position and by world, if and only if they are valid, distinct and within the budget |
| `Publication.ShortcutSound` | common/questdelivery/common_publication.go:110-112 | the worlds-times-channels shortcut rejects only profiles that name some unconfigured location |
| `Publication.MarkChannels` | common/questdelivery/common_publication.go:122-128 | the channels of one world are marked, or one of them is not configured |
| `Publication.BuildMask` | common/questdelivery/common_publication.go:113-129 | a profile's mask marks exactly the locations it matches; refused exactly when it names an unconfigured one |
| `Publication.MaskOf` | common/questdelivery/common_publication.go:106-134 | the mask and whether it is full, if and only if the profile is usable |
| `Publication.CoverQuests` | common/questdelivery/common_publication.go:147-179 | succeeds if and only if the profiles of every enabled quest cover all locations |
| `Publication.ListInventory` | common/questdelivery/common_publication.go:78-96 | every enabled quest with its profiles, if and only if no reference is missing or repeated |
| `Publication.ChargeNames` | common/questdelivery/common_publication.go:72-76 | the running budget admits a list of names if and only if the exact sum fits |
| `Publication.ChargeProfiles` | common/questdelivery/common_publication.go:67-77 | and all profiles, each stop on the way being needed |
| `Publication.ChargeQuests` | common/questdelivery/common_publication.go:78-96 | and all enabled quests |
| `Publication.BuildCohort` | common/questdelivery/common_publication.go:38-181 | a cohort is built if and only if locations, references, profiles, coverage and budgets are all in order |
| `Publication.PermitsLocation` | common/questdelivery/common_publication.go:186-196 | permitted are exactly the configured locations |
| `Publication.CohortFollowsSchedule` | common/questdelivery/common_publication.go:147-179 | at every permitted location an enabled quest is allowed exactly when its schedule is active |
| `Publication.CoverageNeeded` | common/questdelivery/common_publication.go:147-179 | coverage is exactly what is needed for that, at every location and instant |
| `Publication.PublicDocument` | common/questdelivery/public.go:33-60 | the document exists if and only if the calendar does and the rows' cost and the metadata's together fit the budget |
| `Publication.InventoryLists` | common/questdelivery/common_publication.go:147-180 | the inventory lists exactly the enabled quests, with their profiles |
| `Publication.InventoryRises` | common/questdelivery/common_publication.go:147-180 | by rising number |
| `Publication.LocationsSorted` | common/questdelivery/common_publication.go:140-145 | the locations stand by world, and by channel within a world |
| `Documents.RowSize` | common/questdelivery/public.go:43-58 | the cost of a row covers its JSON text and a comma |
| `Documents.ProofSize` | common/questdelivery/common_publication.go:44-96 | the metadata cost of a cohort covers what it adds to a document |
| `Documents.PublicDocumentFits` | common/questdelivery/public.go:28-69 | the JSON text of every public document of an accepted manifest is at most 16 MiB: six bytes for each byte of text and the fixed costs suffice |
| `Documents.CohortDocumentFits` | common/questdelivery/common_publication.go:197-213 | and so is that of every cohort document, with its proof in front |
| `Collab.SortedCheck` | common/questdelivery/collab.go:158-170 | after sorting, comparing neighbours decides that all windows are pairwise apart |
| `Collab.NeighboursOrder` | common/questdelivery/collab.go:164-170 | neighbours apart means that all are in order |
| `Collab.CompilePresentations` | common/questdelivery/collab.go:117-174 | a plan is compiled if and only if every rule is sound and all windows are apart, and is in order of start |
| `Collab.CompiledOk` | common/questdelivery/collab.go:151-170 | the windows of every compiled plan are pairwise apart |
| `Collab.OneActive` | common/questdelivery/collab.go:164-170 | at most one presentation is active at any instant |
| `Collab.OrderDoesNotMatter` | common/questdelivery/collab.go:327-334 | so the first match is the same in every order of the plan |
| `Collab.CoveredBy` | common/questdelivery/collab.go:243-264 | the locations one profile covers, or a refusal when it names an unconfigured one |
| `Collab.CheckQuest` | common/questdelivery/collab.go:236-267 | a quest passes if and only if its profiles name only configured locations and cover all of them |
| `Collab.Configure` | common/questdelivery/collab.go:220-234 | the locations are accepted if and only if valid and distinct |
| `Collab.CheckCapabilities` | common/questdelivery/collab.go:269-280 | every presentation has a capability, and none is unknown or repeated |
| `Collab.BuildCollabCohort` | common/questdelivery/collab.go:213-282 | the cohort of a compiled catalogue is built if and only if all checks hold |
| `Collab.At` | common/questdelivery/collab.go:315-336 | the view: the quests of the first location and the presentation shown |
| `Collab.SameAtEveryLocation` | common/questdelivery/collab.go:315-336 | every other location would give the same quest list |
| `Collab.ViewListed` | common/questdelivery/collab.go:315-326 | a view lists exactly the defined quests that are allowed at its location, by rising number |
| `Collab.ShownExactly` | common/questdelivery/collab.go:327-336 | whichever presentation is active is shown with its tune, and without one nothing is |
| `Layout.Draft.Align` | common/mhfpallone/draft.go:219-223 | zero bytes up to the next multiple of four |
| `Layout.WordsDecode` | common/mhfpallone/catalog.go:176-177 | the words of a table are the little-endian numbers that stand there |
| `RouteBanks.ParseRouteRecord` | common/mhfpallone/catalog.go:174-201 | one record: title, star, number and the stage list, with every refusal |
| `RouteBanks.RecordIff` | common/mhfpallone/catalog.go:174-201 | by offsets alone: a record is accepted as a route if and only if its title lies in the file, bytes 12 to 15 hold star, number and code within their bounds, and its slots hold 1 to 11 stage IDs in the route's order and then only zeros |
| `RouteBanks.StagesAre` | common/mhfpallone/catalog.go:184-200 | a slot list gives these stages if and only if they stand in its first slots, in order, with only zeros behind them |
| `RouteBanks.RecordKept` | common/mhfpallone/catalog.go:174-201 | a record stays readable in a larger file, at any index |
| `RouteBanks.ParseBank` | common/mhfpallone/catalog.go:54-84 | one bank: the records up to the first of another star |
| `RouteBanks.HoldsUnique` | common/mhfpallone/catalog.go:54-84 | the bytes determine the bank |
| `RouteBanks.ParseRouteBanks` | common/mhfpallone/catalog.go:45-86 | all eleven banks in order, or a failure |
| `RouteBanks.JoinedInserts` | common/mhfpallone/catalog.go:53-85 | lengthening one bank by a record inserts that record behind the last of its star in the whole list |
| `ClientDrafts.ParseCatalogue` | common/mhfpallone/catalog.go:135-171 | the records up to the all-zero header, if and only if each is valid and no code repeats |
| `ClientDrafts.CheckCounts` | common/mhfpallone/clientdraft.go:45-58 | accepted exactly when every bank's relocation count is the number of its records |
| `ClientDrafts.Select` | common/mhfpallone/clientdraft.go:59-64 | the last route with the number |
| `ClientDrafts.CheckStages` | common/mhfpallone/clientdraft.go:65-76 | the bodies are exactly those of the route's stages, distinct and in range |
| `ClientDrafts.AssembleDraft` | common/mhfpallone/clientdraft.go:81-108 | the appended parts and the three rewritten words |
| `ClientDrafts.BuildClientDraft` | common/mhfpallone/clientdraft.go:28-119 | from decoded client data, quest list and stages, a draft is built if and only if every check of the inputs holds, and is the stated function of them |
| `ClientDrafts.Ordinal` | common/mhfpallone/clientdraft.go:85-90 | the ordinal is the number of active routes of the star |
| `ClientDrafts.DraftInsertsRoute` | common/mhfpallone/clientdraft.go:25-119 | whenever the rewritten count is apart from what is still read, parsing the draft gives the old routes with the selected one inserted at the end of its star, at the reported ordinal, and the relocation counts match the record counts |
| `ClientDrafts.ApartParses` | common/mhfpallone/clientdraft.go:93-114 | then the final parse never refuses the draft: it is made whenever there is room |
| `ClientDrafts.DraftInserts` | common/mhfpallone/clientdraft.go:81-114 | the same insertion, as a statement about the drafted bytes |
| `ClientDrafts.DraftCounts` | common/mhfpallone/clientdraft.go:45-108 | the relocation counts of the draft are the record counts of what is parsed from it |
| `ClientDrafts.DraftOld` | common/mhfpallone/clientdraft.go:81-108 | every old byte but the header's pointer word and the changed byte of one count stays |
| `ClientDrafts.DraftBank` | common/mhfpallone/clientdraft.go:99-106 | the new bank holds the old records and the new one |
| `ClientDrafts.OthersKept` | common/mhfpallone/clientdraft.go:23-26 | a bank that is still read keeps all its bytes if and only if the changed count is not among them |
| `RouteExamples.RecordChanged` | common/mhfpallone/clientdraft.go:23-119 | when the counts lie in unread bytes of the first bank's record, the draft is built and changes a byte of that record, which is still read |
| `RouteExamples.Instance` | common/mhfpallone/clientdraft.go:23-119 | such client data, quest list and decoded stage exist, so "every pre-existing bank record keeps its bytes" is false of the code |
| `QuestInfos.ReadCategories` | common/mhfpallone/clientdraft.go:137-161 | the category table, or a failure |
| `QuestInfos.ClientQuestRecord` | common/mhfpallone/clientdraft.go:166-189 | the record the client shows for a quest |
| `QuestInfos.FindIff` | common/mhfpallone/clientdraft.go:137-189 | by offsets alone: a quest is found at a record if and only if the list stands, and slot (ID modulo 100) of the first category whose bound is not below the ID leads to that record, which carries the ID |
| `QuestInfos.CategoriesIff` | common/mhfpallone/clientdraft.go:137-161 | the category table is read if and only if header, count, rising bounds, arrays and the closing zeros stand in the file |
| `QuestInfos.FirstIsLeast` | common/mhfpallone/clientdraft.go:175-178 | the first category at or above an ID is the least one |
| `QuestInfos.FirstMerged` | common/mhfpallone/clientdraft.go:250-253 | merging categories in changes an ID's category if and only if a new one lies below it |
| `StageBodies.InspectQuestTemplate` | common/mhfpallone/reconstruction.go:38-83 | a decoded body is accepted if and only if its record, monster block and references lie inside it; its ID and whether it has geometry |
| `StageBodies.ClientQuestTexts` | common/mhfpallone/clientdraft.go:278-300 | all eight texts of a pointer table, or a refusal |
| `StageBodies.TextIff` | common/mhfpallone/clientdraft.go:284-299 | a slot gives exactly the zero-free text of less than 64 KiB that stands where it leads, with a zero behind it |
| `StageBodies.ReadBody` | common/mhfpallone/clientdraft.go:225-236 | what the restoration takes from a decoded body |
| `StageBodies.BodyId` | common/mhfpallone/clientdraft.go:230-231 | the ID that inspecting reports is the one in the record |
| `StageBodies.BodyGenuine` | common/mhfpallone/clientdraft.go:278-300 | a body that is not refused has eight such texts, and a text pointer behind the file header |
| `QuestDrafts.AppendStages` | common/mhfpallone/clientdraft.go:207-249 | the loop inspects and appends the stages in ascending order of their IDs, or stops at the first that is refused |
| `QuestDrafts.StagesGrown` | common/mhfpallone/clientdraft.go:207-249 | whatever the stages, every one has an array slot and a record with its texts, nothing overlaps, and the source stays |
| `QuestDrafts.AppendRecord` | common/mhfpallone/clientdraft.go:237-248 | the record, its text pointers and its texts verbatim |
| `QuestDrafts.MergeRows` | common/mhfpallone/clientdraft.go:250-253 | old and new categories in one strictly ascending table |
| `QuestDrafts.FinishedCategories` | common/mhfpallone/clientdraft.go:254-266 | reading the finished list gives exactly the merged table |
| `QuestDrafts.AppendClientQuestInfo` | common/mhfpallone/clientdraft.go:191-276 | from a decoded list and decoded stages, returns the restored list, a function of both, if and only if no stage is refused, the list is not too long and the client finds every quest in it |
| `QuestDrafts.RestorationHolds` | common/mhfpallone/clientdraft.go:191-276 | a restored list is read as the merged categories, keeps the old bytes behind the header, and holds one record for every body |
| `QuestFinds.RestorableIff` | common/mhfpallone/clientdraft.go:191-276 | of a list whose slots lead to whole records of it, a restoration succeeds if and only if no stage is refused, sizes fit, and every added quest is reached: a condition on the old list and the new bounds; in general the same, with a slot that leads out of the list read in the restored one |
| `QuestFinds.RecordAdded` | common/mhfpallone/clientdraft.go:237-248 | every added quest has a record of its own, with the stage's bytes, behind the source |
| `QuestFinds.FoundIfUnobstructed` | common/mhfpallone/clientdraft.go:166-276 | with no old category in between, an added quest is found if and only if no other new category lies between its ID and its own, and then at its own record |
| `QuestFinds.FoundIfObstructed` | common/mhfpallone/clientdraft.go:166-276 | with one in between, it is found if and only if that one comes before all new ones and its slot leads to a record of the quest in the old list, unless the slot leads out of that; and at its own record if and only if the old slot already held that position |
| `QuestFinds.FindsAdded` | common/mhfpallone/clientdraft.go:166-276 | in a list whose slots lead into it, an added quest is found at its own record if and only if no category, old or new, lies between its ID and its own category |
| `QuestFinds.KeepsOld` | common/mhfpallone/clientdraft.go:166-276 | an old quest is found where it was, with the same bytes, if and only if no new category lies between its ID and the category that held it; otherwise it is no longer found |
| `QuestTexts.TextsKept` | common/mhfpallone/clientdraft.go:237-248 | from the record of every added quest the eight texts of its body are read, whatever else was added |
| `QuestTexts.BodyTexts` | common/mhfpallone/clientdraft.go:231-236 | and those are the texts that the record in the stage led to |
| `QuestExamples.OldRecordFound` | common/mhfpallone/clientdraft.go:166-276 | for any usable stage and an old category below the new one that leads to a record of the quest: the restoration succeeds and the client finds the old record, not the added one |
| `QuestExamples.OldQuestHidden` | common/mhfpallone/clientdraft.go:166-276 | for any usable stage and a new category below the old one that holds another quest: the restoration succeeds and that quest is no longer found |
| `QuestExamples.NeighbourRefused` | common/mhfpallone/clientdraft.go:166-276 | a quest whose ID is the new bound of another: nothing is restored, though no body is refused |
| `QuestExamples.Instances` | common/mhfpallone/clientdraft.go:166-276 | lists and decoded stages for the three: 27001 with an old category 27050, 27050 in 27180 with 27001 added, and 27001 with 27100 |
| `QuestExamples.StageRead` | common/mhfpallone/reconstruction.go:38-83 | the stage of the examples, byte by byte, is accepted and gives its record and eight empty texts |
| `Keyconfig.StepGrows` | common/keyconfigsync/validation.go:96-220 | on every line the automaton accepts exactly what continues a well-formed document, and its counters are those of the document read so far |
| `Keyconfig.RunGrows` | common/keyconfigsync/validation.go:96-220 | the same for any number of lines |
| `Keyconfig.GrowPrints` | common/keyconfigsync/validation.go:96-220 | a document grown by a line prints as before, with that line behind |
| `Keyconfig.ReadDocument` | common/keyconfigsync/validation.go:96-220 | the print of any well-formed document is read back as that document |
| `Keyconfig.AcceptsDocuments` | common/keyconfigsync/validation.go:96-220 | the automaton accepts a list of lines if and only if it is the print of a well-formed document: nesting, numbering from zero, four metadata elements once each, 1..64 categories, 1..256 actions each, at most 1024, 18 keys each |
| `Keyconfig.Scan` | common/keyconfigsync/validation.go:106-220 | the scanning loop, with its early returns, runs the automaton over the structural lines and bounds blanks and comments |
| `Keyconfig.ValidKeyconfig` | common/keyconfigsync/validation.go:96-220 | valid if and only if blanks and comments are within bounds and the other lines are the print of a well-formed document |
| `Licenses.New` | common/questlicense/catalog.go:161-296 | a document becomes a catalogue if and only if every rule holds, and the catalogue holds exactly what the document says, in canonical order |
| `Licenses.ReadLicenses` | common/questlicense/catalog.go:174-193 | keys distinct, quests distinct and in range, mappings bounded; each key filed under exactly its quests |
| `Licenses.MappingsAreGrants` | common/questlicense/catalog.go:180-183 | the running count is the number of pairs of a key and a quest |
| `Licenses.MakeCanonical` | common/questlicense/catalog.go:298-318 | looking at neighbours after sorting refuses exactly the unknown and the duplicate |
| `Sorting.SortedNeighbours` | common/questlicense/catalog.go:298-318 | after any sort by a linear order, elements are distinct if and only if no neighbours are equal |
| `Licenses.ReadProduct` | common/questlicense/catalog.go:213-287 | a product is accepted if and only if its rights are known and its starters are exactly those the rights qualify for |
| `Licenses.CheckDisclosed` | common/questlicense/catalog.go:273-285 | no qualifying starter is omitted |
| `Licenses.DigestOffer` | common/questlicense/catalog.go:329-369 | the canonical snapshot lists the offer's own licenses and starters in the order of its keys; the quests are the sorted union |
| `Licenses.ReorderedOk` | common/questlicense/catalog.go:161-296 | a document with its lists permuted at any level is accepted as well |
| `Licenses.OrderDoesNotMatter` | common/questlicense/catalog.go:161-369 | and makes the same catalogue, offers and canonical snapshots |
| `Licenses.KeysInvertDefinitions` | common/questlicense/catalog.go:426-449 | the keys of a quest are exactly those of the definitions that list it |
| `Licenses.OfferDisclosesStarters` | common/questlicense/catalog.go:252-287 | an offer's starters are exactly those that share a license key with it |
| `Offers.OffersTell` | common/questlicense/catalog.go:213-287 | each product has its offer, which says what it says: price and times, zero where they are not given, and its keys in order |
| `Offers.OffersHave` | common/questlicense/catalog.go:213-287 | and no offer is without a product |
| `Offers.DefinitionOf` | common/questlicense/catalog.go:174-200 | each license has its definition, with its quests rising |
| `Offers.LicenseOf` | common/questlicense/catalog.go:174-200 | and each definition its license |
| `Offers.DefinitionsRise` | common/questlicense/catalog.go:197-200 | definitions stand by key, each key once |
| `Offers.StartersTell` | common/questlicense/catalog.go:201-212 | each starter is held with its item and quantity, its keys and campaigns in order |
| `Offers.OfferQuests` | common/questlicense/catalog.go:329-369 | the quests of an offer are those of the licenses its product names |
| `Warehouse.NewWarehouseId` | common/mhfitem/mhfitem.go:133-145 | the first drawn number that is neither zero nor in use, which is then in use |
| `Warehouse.DrawFresh` | common/mhfitem/mhfitem.go:133-145 | no such number is skipped |
| `Warehouse.DrawFirst` | common/mhfitem/mhfitem.go:133-145 | it is the first such number drawn |
| `Warehouse.DrawGoesOn` | common/mhfitem/mhfitem.go:133-145 | with more numbers to draw the search goes on where it stopped, and what is drawn after its end does not matter |
| `Warehouse.DiffItemStacks` | common/mhfitem/mhfitem.go:88-127 | the map-based merge equals the nested loop over old stacks and updates |
| `Warehouse.MergeGives` | common/mhfitem/mhfitem.go:88-127 | what a merge gives, by positions: one copy under a new ID for every update of something under an ID the box does not have, in order; behind them, in the order of the box, every old stack that holds something after the last update for its ID, with that quantity, and nothing else |
| `Warehouse.LastQuantityIs` | common/mhfitem/mhfitem.go:98-121 | that quantity is the one of the last update with the ID, or the old one if there is none |
| `Warehouse.OldStacks` | common/mhfitem/mhfitem.go:88-127 | an old stack carries the quantity of the last update of its ID, and the box keeps its IDs |
| `Warehouse.MergeKeeps` | common/mhfitem/mhfitem.go:88-127 | a merge keeps IDs nonzero and pairwise distinct and leaves no empty stack |
| `Warehouse.EveryMerge` | common/mhfitem/mhfitem.go:88-127 | and so does every sequence of merges |
| `Warehouse.MergeGoesOn` | common/mhfitem/mhfitem.go:88-127 | a merge that has the draws it needs does not depend on any others |
| `Warehouse.ToBytes` | common/mhfitem/mhfitem.go:148-155 | one stack as bytes |
| `Warehouse.SerializeWarehouseItems` | common/mhfitem/mhfitem.go:159-167 | the count and the stacks |
| `Warehouse.ReadWarehouseItem` | common/mhfitem/mhfitem.go:52-62 | one stack, with a random number for an ID of zero |
| `Warehouse.DeserializeWarehouseItems` | common/mhfitem/mhfitem.go:67-83 | the stacks of a stored box, for any bytes |
| `Warehouse.StoredRoundTrip` | common/mhfitem/mhfitem.go:67-167 | reading a stored box gives its first (count modulo 65536) stacks; all of them, unchanged, if there are at most 65535 and every ID is nonzero |
| `StoredBoxes.SerializedBytes` | common/mhfitem/mhfitem.go:148-167 | every byte of a stored box: two for the count, two zeros, and twelve for each stack |
| `StoredBoxes.DeserializedAt` | common/mhfitem/mhfitem.go:52-83 | what is read from any bytes, by index: as many stacks as the count says but no more than there is room for, each field big-endian at its offset, the n-th zero ID replaced by the n-th random number |

## Left out

- ByteFrame: 64-bit, floating-point, boolean and null-terminated reads and writes, which repeat the proofs of the modelled types; that `ReadBytes` shares memory with the buffer.
- Jpk.UnpackSimple: requires that the code returns on the input; `Hfi.FittingReturns` and `HuffmanWalks.ReadsIff` say when it does.
- Hfi.HuffmanDecodesEncoded: requires that the encoder's last flag byte was kept; without it, what the Huffman stream holds behind its end is not known.
- HuffmanCodes.UnpackCoded: requires the same.
- Hfi.HuffmanRefinesPlain: requires that the plain decoder fills the output without reading beyond its bytes; past the end the two decoders read different things.
- CryptConn.CryptConn.SendPacket: write errors of the socket; the wire takes every byte.
- Protocol.EverySession: sends at or above the size limit, after which the ends are no longer in step.
- Ecd.EncodeECD: the checksum is an input, since the round trip does not depend on how it is computed.
- Manifests.Parse: JSON decoding and the parsing of timestamps; a manifest is a value whose timestamps are read, absent or malformed.
- Schedules.ParseSchedule: a zone is a fixed offset; when a timestamp's offset is that of the server's own location, the code uses the location, whose offset may vary over the year.
- Collab.CompilePresentations: the JSON fields that switch the feature on, and its `configured_world` mode; the model starts from the list of rules.
- Publication.BuildCohort: which of several errors is reported; a refusal is one value.
- Publication.PublicDocument: building the fields of the document other than its rows; its JSON text is that of `Documents`.
- Documents.PublicDocumentFits: the standard library's encoder is modelled by the text it gives for such values; a time is any text of at most 37 bytes, and strings are sequences of characters, so invalid UTF-8 is not part of this model.
- ClientDrafts.BuildClientDraft: decoding the containers, and which error is reported; it starts from decoded data, and a stage that cannot be decoded is an empty one, which is refused as well.
- QuestDrafts.AppendClientQuestInfo: decoding the list's container and the bodies' containers; which error is reported.
- Keyconfig.ValidKeyconfig: splitting bytes into lines and the attributes of an element; the model starts from lines classified by their element.
- Keyconfig: the INI validator next to it, a flat check of lines.
- Warehouse.NewWarehouseId: a search without end; the model draws from a list, and when that ends the search stands where `Warehouse.DrawGoesOn` lets it continue.
- Warehouse: equipment and its sigils, straight-line serialisation.
- Licenses.New: the digest itself, a hash of the encoded snapshot; the model ends with the snapshot. JSON decoding; which of several errors is reported.
- The display, protocol and visa parts of `common/questlicense`.
- `BuildQuestDraft` (`common/mhfpallone/draft.go:64`), byte patching without loops over state.
- Files, sockets, databases, HTTP and logging around these computations.
