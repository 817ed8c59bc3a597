# A model of the file mover and of the SSH library it is built on

The program moves files with two threads: one collects new files from a remote host into a local archive, the other
uploads the archive and deletes it. Underneath is libssh 0.9.6. This project models, in Dafny, the parts of both whose
correctness is not visible in any single function, and proves what they promise.

The modules follow the source files.

| file | what it models |
|---|---|
| `Arith.dfy`, `Bytes.dfy` | exponentiation; big-endian byte strings |
| `Channels.dfy`, `SshChannel.dfy` | one channel end point: transitions as functions, and the class whose methods carry them out in place |
| `FlowControl.dfy`, `Delivery.dfy` | two end points and the links between them: credit, streams, deadlock, and that every byte and the end of the file can be delivered |
| `ChannelLife.dfy` | what an end point puts on the wire and when its record is released |
| `ByteBuffer.dfy` | the growable buffer as a queue of bytes |
| `Mpint.dfy`, `Wire.dfy`, `Packer.dfy` | multiple-precision integers, the wire format, and the format-driven packer and unpacker |
| `Decimal.dfy`, `Base64.dfy`, `Base64Bits.dfy`, `Base64Format.dfy`, `Kdf.dfy` | decimal numbers; base64, its bit operations and its text written out; key derivation |
| `Kex.dfy`, `DhGex.dfy`, `Dh.dfy` | the KEXINIT transcript, the choice of a group, the key agreement |
| `Auth.dfy`, `Conversation.dfy` | public key authentication that can be interrupted at every wait, and what client and server say to each other in it |
| `Pipeline.dfy` | the two threads, the semaphore, the archive and the list of files |

Two forms are used throughout. Code that changes an object is a class or a method over arrays, proved against a
specification function; protocols and interleavings are state machines whose runs are sequences of events chosen by the
environment. A packet that could not be sent, a flush that failed, an answer that is not there yet and a random number are
arguments or fields, so the theorems hold for each of their values. `Kex.Session` and `Auth.Session` are the parts of one C
session structure that each of the two modules needs.

Findings where the code does not do what one would expect, each with a lemma or an exact condition:

* An end-of-file whose flush fails is sent again by the next call (`ChannelLife.SecondEof`);
  the packets keep their order exactly if nothing is sent after such a failure (`ChannelLife.ShapeExactly`,
  `ChannelLife.BreakableExactly`), in particular if the application stops at the error it gets
  (`ChannelLife.StoppingKeepsShape`).
* A peer whose packet limit is 10 makes a write send empty packets until the packet layer fails
  (`SshChannels.SshChannel.WriteCommon`).
* `ssh_buffer_pass_bytes_end` compares with the fill mark only, so it can move the fill mark below the read position
  (`ByteBuffer.CutBeforePosition`; `ByteBuffer.Buffer.PassBytesEnd` says when it does not).
* A string field with a zero byte is accepted by the unpacker, but returned without its length and packed again only up to
  the zero byte (`Wire.ZeroCutsString`, `Wire.DecodedExactly`).
* A raw field as long as everything unread is refused by the unpacker (`Wire.RoundTrip`).
* The base64 decoder counts padding anywhere after the first equals sign and ignores the rest of it
  (`Base64.TailIsOnlyCounted`).
* The client hashes a server's KEXINIT faithfully only if the server announces no guessed packet and the reserved number is
  zero; the server needs the latter only (`Kex.HashedExactly`).
* A random source that fails at the wrong moment leaves the generator and modulus of a smaller group under the size of a
  larger one (`DhGex.StalePair`, `DhGex.KeptFitsExactly`). A preferred size of zero finds nothing (`DhGex.NothingPreferred`).
* A file appended between the end of an upload and the deletion of the archive is lost; a whole run that loses one
  is `Pipeline.RunLosesFile` (also `Pipeline.RaceLoses`, `Pipeline.UnlinkLoses`).

## Model

| member | source | states |
|---|---|---|
| FlowControl.CreditConservation | libssh-src/libssh-0.9.6/src/channels.c:405-624 | in every run of two end points, for both directions: the sender's remote window, the data in flight, the adjusts in flight and the credit lost with packets that could not be buffered add up to the receiver's local window |
| FlowControl.ConformingPeers | libssh-src/libssh-0.9.6/src/channels.c:487-624 | in every run the oldest packet towards either side fits that side's window, so the branch for a misbehaving peer is not taken, and an adjust never wraps the 32-bit window |
| FlowControl.StreamIntegrity | libssh-src/libssh-0.9.6/src/channels.c:520-624 | in every run and for each stream: bytes delivered, bytes buffered and bytes in flight, in this order, are the bytes written, if and only if none was lost for want of a buffer |
| FlowControl.StalledMeansReadable | libssh-src/libssh-0.9.6/src/channels.c:610-622 | in every run without failures a writer without window and with empty links faces a reader holding at least half a window of unread bytes in one stream |
| FlowControl.ReadRefillsWindow | libssh-src/libssh-0.9.6/src/channels.c:2914-2968 | every read that returns data leaves the local window at `WINDOWLIMIT` or more |
| FlowControl.ReadRevivesWriter | libssh-src/libssh-0.9.6/src/channels.c:2914-2968 | in every run without failures and with the reader's channel not closed: the next read call of a stalled writer's peer, of either stream and for any number of bytes, and the delivery of what it sends give the writer at least `WINDOWBASE` bytes of window, whether the call asks before its wait or after it took data |
| Delivery.EveryByteDeliverable | libssh-src/libssh-0.9.6/src/channels.c:520-624 | from every reachable state without failures and with an open receiving channel, finitely many deliveries and read calls of the receiving side hand over, in order, every byte that was written, if the packet limits keep payloads within the size limit of a buffer |
| Delivery.EveryByteDeliverableRight | libssh-src/libssh-0.9.6/src/channels.c:2914-2971 | the same for the other direction |
| Delivery.EveryWriteDeliverable | libssh-src/libssh-0.9.6/src/channels.c:1386-1527 | from every reachable state without failures, with a reader that is not closed and a writer that may write, there is a finite schedule of writes, deliveries and reads after which the reader has, in order, everything written before and then all of any further bytes for either stream |
| Delivery.EveryWriteDeliverableRight | libssh-src/libssh-0.9.6/src/channels.c:1386-1527 | the same for the other direction |
| Delivery.EndOfFileArrives | libssh-src/libssh-0.9.6/src/channels.c:626-652 | from every state without failures that two fresh end points reach, in which one side has announced the end of the file and the other has not closed, finitely many deliveries and reads hand over everything that was written, and then a read reports the end of the file, if the packet limits keep payloads within the size limit of a buffer |
| Delivery.RunOrderly | libssh-src/libssh-0.9.6/src/channels.c:1386-1527 | in every run no payload in flight is longer than the packet limit leaves room for in a buffer, and no data follows a close |
| FlowControl.ConfirmationOpens | libssh-src/libssh-0.9.6/src/channels.c:161-215 | the open confirmation leads to the state the runs start from: each side knows the window the other announced |
| FlowControl.RunKeepsInv | libssh-src/libssh-0.9.6/src/channels.c:405-624 | every interleaving of writes, deliveries, reads, end-of-files and closes of both sides keeps credit, stream contents, buffer bounds and readability in both directions |
| FlowControl.DataKeeps | libssh-src/libssh-0.9.6/src/channels.c:520-624 | receiving a data packet keeps all of that, whether it is buffered, dropped, partly read by callbacks or answered with an adjust |
| FlowControl.WriteKeeps | libssh-src/libssh-0.9.6/src/channels.c:1439-1512 | one round of the write loop keeps all of that |
| FlowControl.FinishReadKeeps | libssh-src/libssh-0.9.6/src/channels.c:2940-2971 | the end of a read keeps all of that |
| SshChannels.SshChannel.GrowWindow | libssh-src/libssh-0.9.6/src/channels.c:405-450 | a window that is large enough is left alone; else one adjust takes it to exactly the larger of `WINDOWBASE` and the minimum asked for, unless the send fails; this is the transition the two-party theorems are about |
| SshChannels.SshChannel.ReceiveChangeWindow | libssh-src/libssh-0.9.6/src/channels.c:487-517 | an adjust adds to the remote window modulo 2^32 |
| SshChannels.SshChannel.ReceiveData | libssh-src/libssh-0.9.6/src/channels.c:520-624 | the bytes are appended, the window is charged for them but not below zero, the callbacks take what they report from the front, and half a window or less is refilled; a failed append frees the stream buffer and charges nothing |
| SshChannels.ConsumedThen | libssh-src/libssh-0.9.6/src/channels.c:597-618 | callbacks take their bytes one after the other, each from what the earlier ones left, and a number that is not positive or more than is there takes nothing |
| SshChannels.SshChannel.ReadBegin | libssh-src/libssh-0.9.6/src/channels.c:2914-2926 | before it waits, a read asks for window exactly if it wants more than it has buffered and the window does not cover the rest, with 32-bit additions, and changes nothing else |
| SshChannels.SshChannel.ReadFinish | libssh-src/libssh-0.9.6/src/channels.c:2940-2971 | never more than the `count` bytes asked for are handed over: with unread bytes the first of them, up to that number, while the rest stays and the other stream is untouched, and the window is refilled; without unread bytes nothing, which is an end of file or, on a closed channel, an error |
| SshChannels.SshChannel.ReceiveAdjusts | libssh-src/libssh-0.9.6/src/channels.c:487-517 | any sequence of adjusts adds up exactly, up to a counted number of wraps |
| SshChannels.SshChannel.SendChunk | libssh-src/libssh-0.9.6/src/channels.c:1439-1512 | one data packet carries the next bytes, at most the remote window and the packet limit less ten, and costs exactly its length, which is zero exactly for a packet limit of 10; wherever the channel is the left side of the two-party system, the call makes its write step: the same packet on the link, the same window left |
| SshChannels.SshChannel.WriteCommon | libssh-src/libssh-0.9.6/src/channels.c:1386-1527 | whatever is heard during the waits for new keys and for window: the packets carry a beginning of the data in order and within the limits; with enough packets that is all the window found and the windows waited for cover, so a write whose waits bring enough window sends everything; the remote window is what was found plus what was heard less what was sent; the call reports what it sent or an error, and when it is an error; the channel is as before or closed by the peer; with a packet limit of 10 it sends as many empty packets as the packet layer takes, and fails only when that does |
| SshChannels.SshChannel.SendEof | libssh-src/libssh-0.9.6/src/channels.c:1234-1280 | the in-place end-of-file call makes the transition the wire-shape theorems are about |
| SshChannels.SshChannel.Close | libssh-src/libssh-0.9.6/src/channels.c:1295-1346 | an end-of-file is sent if none is recorded, then a close packet, unless sending or flushing the end-of-file fails; the channel is closed and marked as closed exactly if the close packet is sent, and a second call sends nothing |
| SshChannels.SshChannel.Free | libssh-src/libssh-0.9.6/src/channels.c:1133-1177 | on a living session a channel that is open, or that only the peer has closed, is closed first; the record is marked as freed, and it is released exactly when the peer has closed or never knew the channel |
| SshChannels.SshChannel.ReceiveClose | libssh-src/libssh-0.9.6/src/channels.c:654-700 | a close is delayed while bytes are unread, and releases a freed record |
| ChannelLife.WireShape | libssh-src/libssh-0.9.6/src/channels.c:1234-1346 | in every order of calls and packets, the data, end-of-file and close packets of the channel are data, then at most one end-of-file, then at most one close after it, if every flush after an end-of-file succeeds |
| ChannelLife.ShapeExactly | libssh-src/libssh-0.9.6/src/channels.c:1234-1346 | over all runs, failing flushes included: the data, end-of-file and close packets have that shape if and only if none of them is sent after a call whose flush of an end-of-file failed |
| ChannelLife.BreakableExactly | libssh-src/libssh-0.9.6/src/channels.c:1234-1346 | the state after any call that follows only calls without such a failure is sound; calls that all succeed can break the shape from there if and only if the flush has failed and the channel is neither freed nor released |
| ChannelLife.StoppingKeepsShape | libssh-src/libssh-0.9.6/src/channels.c:1234-1346 | an application that makes no further call, not even one that frees the channel, after an end-of-file or close call returned an error keeps the shape, whatever fails and whatever arrives |
| ChannelLife.ShapeKeptIffRemembered | libssh-src/libssh-0.9.6/src/channels.c:1234-1280 | in a sound state, which every state up to and including the first failed flush is, every further call keeps that shape exactly when the end point has recorded the end-of-file it sent |
| ChannelLife.SecondEof | libssh-src/libssh-0.9.6/src/channels.c:1261-1279 | a failed flush after an end-of-file and a second call put two end-of-files on the wire |
| ChannelLife.ReleasedExactlyWhen | libssh-src/libssh-0.9.6/src/channels.c:654-700 | in every run the record is released at most once, and has been exactly when the application freed it and the peer closed it or never knew it |
| ChannelLife.FreeAndCloseRelease | libssh-src/libssh-0.9.6/src/channels.c:1133-1204 | a run with a local free and a remote close, in either order, releases the record |
| ChannelLife.OrdinaryLifeRuns | libssh-src/libssh-0.9.6/src/channels.c:1133-1346 | the ordinary life of a channel, whatever is written in it, puts all its data, one end-of-file and one close on the wire and releases the record once |
| ByteBuffer.Buffer.Smallest | libssh-src/libssh-0.9.6/src/buffer.c:181-198 | the wrapping doubling loop ends for every 64-bit request: with zero from 2^63 on, else with a power of two above the request and at most twice it |
| ByteBuffer.Buffer.Realloc | libssh-src/libssh-0.9.6/src/buffer.c:181-220 | reallocation succeeds exactly below the size limit and never changes the contents |
| ByteBuffer.Buffer.Shift | libssh-src/libssh-0.9.6/src/buffer.c:226-247 | moving the contents to the front keeps them |
| ByteBuffer.Buffer.Reinit | libssh-src/libssh-0.9.6/src/buffer.c:259-287 | the buffer is empty and at most 64 KiB large |
| ByteBuffer.Buffer.AddData | libssh-src/libssh-0.9.6/src/buffer.c:300-329 | the bytes are appended, or the call fails and the contents are the same; when it fails is stated exactly |
| ByteBuffer.Buffer.AllocateSize | libssh-src/libssh-0.9.6/src/buffer.c:340-357 | the allocation is large enough or the call fails; the contents are the same |
| ByteBuffer.Buffer.Prepend | libssh-src/libssh-0.9.6/src/buffer.c:529-556 | the bytes are put in front, or the call fails and the contents are the same; when it fails is stated exactly |
| ByteBuffer.Buffer.PassBytes | libssh-src/libssh-0.9.6/src/buffer.c:625-640 | a prefix of the asked length is dropped or nothing; an emptied buffer starts again at zero |
| ByteBuffer.Buffer.PassBytesEnd | libssh-src/libssh-0.9.6/src/buffer.c:653-663 | a suffix is dropped and the fill mark moves by its length; the buffer stays well formed exactly if the length is at most the unread length or above the fill mark |
| ByteBuffer.CutBeforePosition | libssh-src/libssh-0.9.6/src/buffer.c:653-691 | two bytes added, one read and two cut off the end leave a new buffer with its fill mark before its read position |
| ByteBuffer.Buffer.GetData | libssh-src/libssh-0.9.6/src/buffer.c:676-691 | a prefix of the asked length is handed over, or nothing if there is less |
| ByteBuffer.Buffer.GetSshString | libssh-src/libssh-0.9.6/src/buffer.c:767-797 | a length-prefixed string is taken off the front; a length beyond the rest consumes the four length bytes only |
| ByteBuffer.Buffer.AddSshString | libssh-src/libssh-0.9.6/src/buffer.c:408-422 | length and bytes are appended together or not at all |
| Mpint.MpintLength | libssh-src/libssh-0.9.6/src/bignum.c:30-64 | zero and oversized numbers have no string, every other number one of bits / 8 + 1 bytes |
| Mpint.MpintRoundTrip | libssh-src/libssh-0.9.6/src/bignum.c:66-80 | reading the string of a number gives the number |
| Mpint.MpintNonNegative | libssh-src/libssh-0.9.6/src/bignum.c:40-52 | the first byte of the string is below 0x80 |
| Mpint.MpintShortest | libssh-src/libssh-0.9.6/src/bignum.c:30-64 | no string of the same value with the sign bit clear is shorter, and none of the same length is different |
| Wire.RoundTrip | libssh-src/libssh-0.9.6/src/buffer.c:1088-1329 | unpacking what was packed succeeds exactly if no raw field is as long as everything unread, and then gives the same values, consumes exactly the packed bytes and leaves what follows; of C strings that end at their first zero byte the caller sees all |
| Wire.UniquelyDecodable | libssh-src/libssh-0.9.6/src/buffer.c:920-1030 | equal byte strings that begin with packings by one format, with raw fields of the same lengths, which the caller of the unpacker states, have equal values and equal rests |
| Wire.PackingComposes | libssh-src/libssh-0.9.6/src/buffer.c:920-1030 | packing in two calls is packing in one |
| Wire.DecodedIsEncoded | libssh-src/libssh-0.9.6/src/buffer.c:1088-1329 | for a format without big numbers, what the unpacker accepts is the packing of the values the caller sees, if no C string among them has a zero byte |
| Wire.DecodedExactly | libssh-src/libssh-0.9.6/src/buffer.c:1088-1329 | for every format: packing what the caller sees of the unpacked values gives the bytes the unpacker took if and only if every big number among them came in the encoding the packer uses and no C string has a zero byte |
| Wire.ZeroCutsString | libssh-src/libssh-0.9.6/src/buffer.c:1177-1203 | a string field with a zero byte is accepted whole, and packing what the caller sees of it gives the field up to the first zero byte |
| Wire.ZeroCutsConcrete | libssh-src/libssh-0.9.6/src/buffer.c:972-978 | seven bytes, of which the string a NUL b is the payload, are packed again as five |
| Wire.FieldBytes | libssh-src/libssh-0.9.6/src/buffer.c:946-1009 | every kind of value in bytes: integers most significant byte first, strings and big numbers behind a length of four bytes, raw bytes and text as they are |
| Wire.AnyBigAccepted | libssh-src/libssh-0.9.6/src/buffer.c:1158-1169 | a big number is accepted in every encoding, shortest or not |
| Wire.NeededIsExact | libssh-src/libssh-0.9.6/src/buffer.c:815-909 | for a format without big numbers the size reserved before packing is the number of bytes packed |
| Packer.NeededFor | libssh-src/libssh-0.9.6/src/buffer.c:815-909 | the size reserved before packing is the sum over the format, and the argument count is checked |
| Packer.PackOne | libssh-src/libssh-0.9.6/src/buffer.c:946-1009 | one value's encoding is appended, or a beginning of it when the call fails |
| Packer.Pack | libssh-src/libssh-0.9.6/src/buffer.c:920-1030 | success means a non-empty format, the right number of arguments and their whole encoding appended; given room, these are enough; what was in the buffer stays |
| Packer.UnpackOne | libssh-src/libssh-0.9.6/src/buffer.c:1122-1244 | one value is taken off the front as its letter says |
| Packer.Unpack | libssh-src/libssh-0.9.6/src/buffer.c:1088-1329 | success is exactly a non-empty format, the right number of arguments and every field present; the values and the rest are those of the decoding |
| Decimal.ReservedIsEnough | libssh-src/libssh-0.9.6/src/gcrypt_missing.c:55-63 | for every number of bits, 2^bits is at most 10 to the number of digits the integer arithmetic reserves |
| Decimal.PrintShape | libssh-src/libssh-0.9.6/src/gcrypt_missing.c:48-100 | the decimal text is not empty, all digits, and has no leading zero unless the number is zero |
| Decimal.ParsePrint | libssh-src/libssh-0.9.6/src/gcrypt_missing.c:32-46 | the value of a number's text is the number |
| Decimal.PrintParse | libssh-src/libssh-0.9.6/src/gcrypt_missing.c:32-46 | the text of a value is the text it was read from, if that has no leading zero |
| Decimal.Bn2Dec | libssh-src/libssh-0.9.6/src/gcrypt_missing.c:48-100 | the digit loop, which takes one bit at a time, and the shift over leading zeroes leave exactly the decimal text and a terminator within the allocation |
| Decimal.Dec2Bn | libssh-src/libssh-0.9.6/src/gcrypt_missing.c:32-46 | the loop reads the value of the text before the terminator |
| Decimal.ParseDigit | libssh-src/libssh-0.9.6/src/gcrypt_missing.c:32-46 | the digits are the characters 0 to 9, and each one read multiplies what was read before by ten |
| Decimal.PrintThenRead | libssh-src/libssh-0.9.6/src/gcrypt_missing.c:32-100 | printing and reading back gives every number again |
| Base64.SextetsAreDigits | libssh-src/libssh-0.9.6/src/base64.c:238-264 | the sextets of three bytes are the base-64 digits of the number the bytes are |
| Base64Bits.EncoderBits | libssh-src/libssh-0.9.6/src/base64.c:238-264 | the shifts, masks and ors of the encoder compute these sextets, for all bytes |
| Base64Bits.DecoderBits | libssh-src/libssh-0.9.6/src/base64.c:38-46 | for any four indices below 64, the three bytes the decoder masks and shifts out of the word it assembled are the bytes of the number with these base-64 digits |
| Base64.RoundTrip | libssh-src/libssh-0.9.6/src/base64.c:60-298 | every non-empty byte string is accepted after encoding and decodes to itself; the text of the empty one is refused |
| Base64.TailIsOnlyCounted | libssh-src/libssh-0.9.6/src/base64.c:224-235 | what follows the first equals sign matters only through the number of equals signs in it |
| Base64.EncodedFits | libssh-src/libssh-0.9.6/src/base64.c:273-282 | the text and its terminator fit the computed allocation, for every length |
| Base64.WriteBlock | libssh-src/libssh-0.9.6/src/base64.c:238-264 | the four characters of up to three bytes are written and nothing before them changes |
| Base64.BinToBase64 | libssh-src/libssh-0.9.6/src/base64.c:273-298 | the allocation holds the whole text and a terminator, and no write falls outside it |
| Base64.GetEquals | libssh-src/libssh-0.9.6/src/base64.c:224-235 | all equals signs are counted and each is replaced by a terminator |
| Base64.ToBlock4 | libssh-src/libssh-0.9.6/src/base64.c:182-207 | two to four characters are accepted exactly if they are in the alphabet, and give their number |
| Base64.Base64ToBin | libssh-src/libssh-0.9.6/src/base64.c:60-173 | a buffer is returned exactly if the text before the first equals sign is non-empty and in the alphabet, the number of equals signs is the padding its length calls for, and the bytes fit a buffer; it holds the decoded bytes |
| Base64Format.AlphabetIs | libssh-src/libssh-0.9.6/src/base64.c:32-35 | the 64 characters and their places |
| Base64Format.PositionIs | libssh-src/libssh-0.9.6/src/base64.c:182-207 | a character is looked up successfully exactly if it is one of the 64 |
| Base64Format.ThreeBytesText | libssh-src/libssh-0.9.6/src/base64.c:238-264 | the text of three bytes is the four digits of their number, most significant first, in front of the text of the bytes after them |
| Base64Format.TwoBytesText | libssh-src/libssh-0.9.6/src/base64.c:238-264 | the text of two bytes is three digits and an equals sign |
| Base64Format.OneByteText | libssh-src/libssh-0.9.6/src/base64.c:238-264 | the text of one byte is two digits and two equals signs |
| Base64Format.CharactersBytes | libssh-src/libssh-0.9.6/src/base64.c:60-173 | four characters decode to the three bytes of their number, in front of the bytes of what follows; three and two characters to two bytes and one |
| Base64Format.AcceptedExactly | libssh-src/libssh-0.9.6/src/base64.c:60-173 | a text is accepted exactly if what precedes its first equals sign is not empty and in the alphabet, and at most two equals signs make its length a multiple of four |
| Kdf.DeriveKey | libssh-src/libssh-0.9.6/src/kdf.c:117-167 | the beginning of the output is the digest of the secret, the exchange hash, the key's letter and the session identifier; from every whole number of digests on it goes on with the digest of the secret, the exchange hash and all that precedes; no byte after the request is touched; a digest longer than the local buffer is an error and writes nothing |
| Kdf.ShorterIsPrefix | libssh-src/libssh-0.9.6/src/kdf.c:117-167 | key material is determined by its length, and a shorter request yields the beginning of a longer one |
| Kdf.BlocksExtend | libssh-src/libssh-0.9.6/src/kdf.c:147-164 | each further digest extends what is there |
| Kex.HashedExactly | libssh-src/libssh-0.9.6/src/kex.c:331-545 | the receiver's hash buffer ends up as the peer's message byte for byte exactly if the reserved number is zero, nothing follows the message and, on the client, no guessed packet was announced |
| Kex.Session.SendKex | libssh-src/libssh-0.9.6/src/kex.c:833-890 | the packet and its bytes are those section 7.1 of RFC 4253 describes, the hash buffer is the message without its two final fields; as long as the buffers have room, a list too long for a string is the only failure, and it empties both |
| Kex.MessageBytes | libssh-src/libssh-0.9.6/src/kex.c:833-890 | the bytes of a KEXINIT message as section 7.1 of RFC 4253 describes them |
| Kex.Session.PacketKexinit | libssh-src/libssh-0.9.6/src/kex.c:331-545 | as long as the hash buffer has room, a packet is accepted exactly in the right states and if it is a cookie, ten strings and, on the server, something more; the hash buffer is that of the packet, and so is the peer's proposal, whose lists end at their first zero byte |
| Kex.AcceptedExactly | libssh-src/libssh-0.9.6/src/kex.c:331-545 | a received packet is acceptable exactly if it is a cookie of 16 bytes, ten strings and whatever follows, on the server something |
| Kex.Session.MakeSessionId | libssh-src/libssh-0.9.6/src/kex.c:975-1246 | for every family of key exchanges the bytes of the hash input: both banners, both KEXINIT messages, client first, the host key, the public values in the order of section 8 of RFC 4253 and its successors, and the secret, each behind its length; there is an input exactly if every part has an encoding; the two hash buffers are used up |
| Kex.DhPreimage | libssh-src/libssh-0.9.6/src/kex.c:997-1077 | when the input of a Diffie-Hellman exchange exists, and its bytes: e before f (section 8 of RFC 4253) |
| Kex.GexPreimage | libssh-src/libssh-0.9.6/src/kex.c:1078-1113 | the same for a negotiated group: the three sizes, the modulus, the generator, e and f (section 3 of RFC 4419) |
| Kex.EcdhPreimage | libssh-src/libssh-0.9.6/src/kex.c:1110-1127 | the same for an elliptic curve: the client's point before the server's (section 4 of RFC 5656) |
| Kex.Curve25519Preimage | libssh-src/libssh-0.9.6/src/kex.c:1128-1144 | the same for Curve25519 (section 3 of RFC 8731) |
| Kex.Handshake | libssh-src/libssh-0.9.6/src/kex.c:331-545 | in the first exchange and in every later one, whichever of two sessions speaks first and also if both send before either has received: with equal banners, keys and secret both put together the same hash input, over the two messages as they were sent, and both hold both proposals unless a list has a zero byte |
| Kex.PreimageBinds | libssh-src/libssh-0.9.6/src/kex.c:997-1160 | within a family of key exchanges equal hash inputs mean equal banners, messages, host keys, public values and secrets |
| Kex.ParseComplete | libssh-src/libssh-0.9.6/src/kex.c:379-398 | reading strings back gives the name lists that were written and what follows them |
| DhGex.ScanIsOptimal | libssh-src/libssh-0.9.6/src/dh-gex.c:385-480 | the scan ends with no size if no tested line lies in the window, else with the smallest size from the preferred one up, else with the largest below it, whatever is drawn |
| DhGex.OrderDoesNotMatter | libssh-src/libssh-0.9.6/src/dh-gex.c:321-480 | two files with the same lines in any order and number give the same size |
| DhGex.ScanCounts | libssh-src/libssh-0.9.6/src/dh-gex.c:437-446 | the line count is the number of tested lines of the chosen size |
| DhGex.KeptFitsExactly | libssh-src/libssh-0.9.6/src/dh-gex.c:448-461 | the kept pair belongs to a line of the chosen size exactly if a line of that size was drawn |
| DhGex.KeptFitsWhenRandomWorks | libssh-src/libssh-0.9.6/src/dh-gex.c:370-461 | with a working random source it always does |
| DhGex.LastDrawnIsKept | libssh-src/libssh-0.9.6/src/dh-gex.c:448-461 | the kept pair is that of the last line of the chosen size that was drawn |
| DhGex.StalePair | libssh-src/libssh-0.9.6/src/dh-gex.c:370-461 | a concrete file and a failing draw keep the pair of the smaller group under the larger size |
| DhGex.NothingPreferred | libssh-src/libssh-0.9.6/src/dh-gex.c:321-364 | with a preferred size of zero no line is ever chosen |
| DhGex.RetrieveFromFile | libssh-src/libssh-0.9.6/src/dh-gex.c:385-480 | the loop over the lines computes that size and keeps the generator and modulus of one line, a tested one; with a working random source it is one of the chosen size |
| DhGex.ClampedIsOptimal | libssh-src/libssh-0.9.6/src/dh-gex.c:626-632 | the clamped request asks for what the original one asks for, among the groups of at least 2048 bits |
| DhGex.ServerRequest | libssh-src/libssh-0.9.6/src/dh-gex.c:498-677 | a request is answered exactly if it is acceptable and the scan keeps a line whose generator and modulus can be read; with a working random source and readable lines that is exactly if a tested line of at least 2048 bits lies in its window; generator and modulus come from one line of the size chosen |
| Dh.Agreement | libssh-src/libssh-0.9.6/src/dh_key.c:296-376 | (g^x mod p)^y = g^(x y) = (g^y mod p)^x modulo p, for every modulus, generator and pair of exponents |
| Dh.RandomBitsBelow | libssh-src/libssh-0.9.6/src/dh_key.c:311-317 | the number of random bits is below that of the modulus exactly from 1088 bits on, where it is 1024; up to 1024 bits it is 64 more than the modulus has, and in between it is 1088 |
| Dh.LargeModulusKeepsRandom | libssh-src/libssh-0.9.6/src/dh_key.c:311-325 | for such a modulus the random number is the private key |
| Dh.DhContext.SetParameters | libssh-src/libssh-0.9.6/src/dh_key.c:196-229 | new parameters empty both key pairs, and a missing one stays |
| Dh.DhContext.SetKeys | libssh-src/libssh-0.9.6/src/dh_key.c:161-178 | only the given halves of one pair change |
| Dh.DhContext.GetKeys | libssh-src/libssh-0.9.6/src/dh_key.c:132-159 | the halves asked for are handed out, and a half of zero is refused |
| Dh.DhContext.GenKeys | libssh-src/libssh-0.9.6/src/dh_key.c:296-340 | the pair is a reduced random number and the generator to that power; modulus zero is an error that changes nothing |
| Dh.DhContext.ComputeSharedSecret | libssh-src/libssh-0.9.6/src/dh_key.c:349-376 | the remote public key to the power of the local private key |
| Dh.Exchange | libssh-src/libssh-0.9.6/src/dh.c:310-548 | client and server, exchanging public keys in their wire encoding, end with the same secret, and fail exactly if a public key has no encoding |
| Auth.Session.TryPublickey | libssh-src/libssh-0.9.6/src/auth.c:489-584 | an interrupted offer leaves a state from which the same packets and result follow; a finished one has sent and returned what the uninterrupted one does, also when another call is pending or the connection is lost |
| Auth.Session.Publickey | libssh-src/libssh-0.9.6/src/auth.c:609-723 | the same for a signature with a key from a file |
| Auth.Session.AgentPublickey | libssh-src/libssh-0.9.6/src/auth.c:726-825 | the same for a signature by the agent |
| Auth.Session.Agent | libssh-src/libssh-0.9.6/src/auth.c:872-961 | the same for the loop over the agent's keys, from whichever key and stage it was interrupted at |
| Auth.Session.ImportKeys | libssh-src/libssh-0.9.6/src/auth.c:1052-1098 | loading an identity's keys, with each way to fail, does what the uninterrupted loop does |
| Auth.Session.TryIdentity | libssh-src/libssh-0.9.6/src/auth.c:1052-1192 | one identity, from the stage it has reached, ends with the next identity's turn or a result, as the uninterrupted loop does |
| Auth.Session.PublickeyAuto | libssh-src/libssh-0.9.6/src/auth.c:1007-1201 | a call that is interrupted has sent more or waited longer, and what is left to send and to return stays the same; a call that is not returns what was left |
| Auth.Session.Authenticate | libssh-src/libssh-0.9.6/src/auth.c:1007-1201 | for every schedule of interruptions, and wherever the connection is lost, calling until the result is final ends, sends the packets of the uninterrupted call and returns its result |
| Auth.OffersInOrder | libssh-src/libssh-0.9.6/src/auth.c:872-1201 | the keys offered are some of the agent's keys and then some of the identities', each list position at most once and in order |
| Auth.SignedAfterOffer | libssh-src/libssh-0.9.6/src/auth.c:872-1201 | every signature a call sends comes right after the server accepted an offer of the same call: of the same key of the agent, or of the public key of the identity whose private key signs |
| Auth.SuccessIsTheServers | libssh-src/libssh-0.9.6/src/auth.c:142-186 | success is reported only if the server accepted a signature, which is the last packet sent |
| Conversation.Converses | libssh-src/libssh-0.9.6/src/auth.c:872-1201 | every call, whatever the keys, the answers and the refusals of the connection, says exactly what the description of the conversation allows: a refused key is followed by the next one, an accepted one by its signature, a refused signature by the next key, and everything else ends the call with the result described |
| Conversation.DeniedTriedAll | libssh-src/libssh-0.9.6/src/auth.c:1007-1201 | a call that ends with a refusal has offered every allowed key of the identities, in order, and no identity was unloadable; it has offered every allowed key of the agent as well, unless the agent's part met with trouble |
| Conversation.AgentTriedAll | libssh-src/libssh-0.9.6/src/auth.c:872-961 | a call begins with an offer of every allowed key of the agent, in order, unless the agent's part meets with trouble or the server answers one of its signatures with success or partial success, after which nothing is sent |
| Conversation.AcceptedIsSigned | libssh-src/libssh-0.9.6/src/auth.c:895-1192 | every offer the server accepts is followed by a signature, unless the private key cannot be loaded, is not allowed or does not sign, or the connection refuses the packet |
| Conversation.ResultIsTheServers | libssh-src/libssh-0.9.6/src/auth.c:142-186 | success is returned exactly if the last packet is a signature the server accepted; partial success is its last answer, and every signature answered so is the last packet; an error has a cause in the connection, an answer, a key or an identity; a method that is not enabled sends nothing |
| Conversation.GoneStaysGone | libssh-src/libssh-0.9.6/src/auth.c:489-584 | on a connection that is gone nothing is sent and nobody is authenticated |
| Pipeline.Safety | file-transfer.cpp:291-551 | in every interleaving, also with an archive left over from an earlier run: the threads never hold the archive together, the semaphore counts exactly the holders, the list has no duplicates, what is left of it is not in the archive, and the names that left it followed by those processed in this pass are, in order, the names the archive took |
| Pipeline.UnlinkLoses | file-transfer.cpp:343-377 | deleting the archive loses exactly the files appended after the upload it follows |
| Pipeline.OthersLoseNothing | file-transfer.cpp:418-551 | no other step loses a file, a deletion that fails included |
| Pipeline.FailureStops | file-transfer.cpp:526-549 | after a failed upload the uploading thread neither uploads nor deletes any more |
| Pipeline.QuietRunsLoseNothing | file-transfer.cpp:418-551 | in a run without an append between an upload's release and the deletion, every file that left the list is in the archive or in one that was uploaded |
| Pipeline.RaceLoses | file-transfer.cpp:526-534 | from any state that keeps the invariants and lies between release and deletion, a file that is appended in full before the deletion counts as processed and is in no archive |
| Pipeline.RunLosesFile | file-transfer.cpp:418-551 | there is such a run from the start of the program: for any two names, the first file is collected and uploaded, the second one is appended before the deletion, leaves the list and is in no archive |
| Pipeline.RaceSetUpRuns | file-transfer.cpp:418-551 | the state the race starts from is reached, and keeps the invariants |
| Pipeline.EraseAll | file-transfer.cpp:489-492 | the in-place removal keeps exactly the other names, in order, and touches nothing behind the list |
| Pipeline.RemoveProcessed | file-transfer.cpp:489-492 | the removal loop drops exactly the processed beginning of a list without duplicates |
| Pipeline.AddNew | file-transfer.cpp:450-458 | the list gains exactly the new files it lacks, behind those it had and in their order, and stays free of duplicates |

## Left out

- SshChannels.SshChannel.WriteCommon: the number of packets the packet layer takes before it fails is finite; if it never fails, a packet limit of 10 keeps the source in its loop for ever.
- SshChannels.SshChannel.ReadBegin: does not cover a read of a stream whose buffer was freed after a failed append, where the source follows a null pointer.
- SshChannels.SshChannel.ReadFinish: does not cover a freed stream buffer either.
- Delivery.EveryByteDeliverable: does not cover packet limits above 2^28 + 10; a payload longer than the size limit of a buffer cannot be stored and is lost.
- Delivery.EveryWriteDeliverable: does not cover those either, nor the limit of exactly 10, with which nothing can be written.
- ChannelLife.ShapeExactly: what is heard while an end-of-file or a close is flushed is heard before or after the call.
- ByteBuffer.Buffer.AddData: does not cover lengths of 2^32 and more, which the 32-bit parameter cannot hold.
- Kdf.DeriveKey: does not cover a digest of length zero with a non-empty request, for which the loop of the source does not end.
- Kex.Session.SendKex: does not cover messages so large that a buffer reaches its size limit of 2^28 bytes.
- Kex.Session.PacketKexinit: does not cover those either. The extension flags, the guess of the first packet and the callback that continues the exchange are not part of it.
- Kex.Session.MakeSessionId: gives the input of the digest, not the digest; that a hash buffer is shorter than 2^32 bytes is required, which the size limit of the buffer provides.
- Decimal.Bn2Dec: does not model the 32-bit `int` the size is computed in.
- Auth.Session.Authenticate: takes a send that fails as the loss of the connection, after which nothing is sent or answered. A denied service is not an outcome: no code sets that state. The keyboard-interactive answers that share a handler are not modelled.
- Conversation.Converses: does not cover a call that starts while another kind of call is pending, which `Auth.Session.PublickeyAuto` covers.
- Pipeline.Safety: names files within the collecting directory, whose path ends with a slash; whether a download or a size check succeeds is the environment's choice, and an upload counts although the next one overwrites it on the remote host.
- `Packer`: a `t` field can be packed but has no unpacker; arguments whose C type does not match the format are not modelled.
- `Base64`: counting 2^31 and more equals signs in an `int`.
- Sockets, polling, timeouts, compression, encryption and packet framing; they appear as outcomes of sends, flushes and waits.
- Memory exhaustion, the erasing of secrets, logging and error texts.
- Callbacks of the application that call back into the channel they are called for.
- Bodies of digests, signatures and big-number libraries: digests are functions, big numbers natural numbers.
- Packets queued while keys are exchanged again, and the choice of algorithms from the name lists.
- The fallback groups used when the moduli file cannot be read.
- Known hosts, configuration files, SFTP and the creation of sessions and daemons.
