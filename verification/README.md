# What the kernel of grenOS guarantees

A model of those parts of the kernel of grenOS that turn bytes into bytes and
carry real guarantees, and proofs of what they promise:

- the FAT32 driver: every write is a sequence of sector writes, and a machine
  may stop between any two of them;
- the two-slot update of the kernel, on a disk that may also lose any of the
  sector writes since its last flush;
- the arithmetic of X25519 and Ed25519 on sixteen signed limbs, and reduction
  modulo L; Poly1305 on five limbs of 26 bits;
- ChaCha20-Poly1305, SHA-256 and SHA-512 fed in pieces;
- the TLS 1.3 client and the fetching of a page over TCP and HTTP/1.1, however
  the network cuts, loses, repeats and reorders what the server sent;
- page tables and the frame allocator, threaded through physical memory, and
  the ring between interrupt handlers and the main loop.

There is one module for each component, and one file for each module. Objects
that the kernel updates in place are classes: the disk, the FAT cache, the
installer, the hashes, the authenticator, the TLS client, the fetch, the free
frames, the event ring. Each of their methods is proved to do what a function
or a predicate on values says, and the theorems are about these. Field
elements are arrays.

**The disk** (`blocks.dfy`) is a sequence of 512-byte sectors with a ghost log
of what was written and flushed. A stop half-way is a prefix of the log.
`crashes.dfy` adds the write cache: of the writes since the last flush any
subset may be lost.

**A volume** is well formed (`fat_tree.dfy`) when every entry of every
directory in use leads to a whole chain inside the partition, no cluster is in
two chains, no cluster in use is free and no chain has two entries. It is
sound (`fat_write.dfy`) when, moreover, no slot follows the end marker of a
directory but free ones, no stray long-name slots stand before a free run, all
FAT copies are equal and FSInfo's count, if there is one, is exact. What a
path reads is `FatTree.Contents`.

**Formats.** What is on the disk, on the wire and in a page table is also stated
apart from the functions that make it, in bytes, bits and literals:
`fat_format.dfy`, `install_paths.dfy`, `hash_format.dfy`, `aead_format.dfy`,
`tls_schedule.dfy`, `TlsHellos.HelloBytes` and `paging_hardware.dfy`.

**Integers** are unbounded, so the width of every word in the limb arithmetic
is a precondition of the functions that compute it (`I64`, `U32`, `U64`);
counters that wrap do so explicitly.

## Model

| member | source | states |
|---|---|---|
| FatChain.ChainOfExact | kernel/src/fat.rs:263-293 | the walk from a first cluster is accepted exactly when it is a finite chain of linked clusters inside the partition; such a chain repeats no cluster, although only its length is looked at |
| FatChain.ChainShort | kernel/src/fat.rs:263-293 | a linked chain inside the partition has at most as many clusters as the partition: the length at which the walk gives up refuses no proper chain |
| FatChain.Chain | kernel/src/fat.rs:263-293 | the loop returns the chain, or nothing exactly when no finite chain starts there, on any contents of the FAT |
| FatData.Runs | kernel/src/fat.rs:297-311 | the runs together span exactly the sectors of the chain, in order, and none is longer than the driver's buffer unless it is a single cluster |
| FatData.EachChunk | kernel/src/fat.rs:410-436 | the pieces handed out join to the first bytes of the chain up to the size or the limit, none larger than the buffer; it fails exactly on a directory, a broken chain or one too short |
| FatData.PaddedFlat | kernel/src/fat.rs:467-481 | the sectors written for some data read back as the data, then zeros to the end of the last sector |
| FatData.Overwrite | kernel/src/fat.rs:451-464 | it writes the first sectors of the file's own chain, in order, with the data and then zeros, or nothing at all; it refuses exactly a directory, data larger than the file, and a chain broken or too short |
| FatOverwrite.OverwriteKeeps | kernel/src/fat.rs:451-464 | on a well-formed volume, after every prefix of its writes the volume is well formed, every path leads to the same entry and every other path reads the same; at the end the file is the data, then zeros up to its old size |
| FatTables.FatTable.Set | kernel/src/fat.rs:158-168 | a change is seen by later reads of the table and not by the disk; the reserved high bits of the word stay |
| FatTables.FatTable.Flush | kernel/src/fat.rs:171-182 | each dirty sector goes once into every FAT copy, in the order the sectors were first read |
| FatTables.FlushAgree | kernel/src/fat.rs:171-182 | at every prefix of a flush, an entry that was not changed reads as before and no data sector is written |
| FatTables.FlushView | kernel/src/fat.rs:171-182 | a finished flush makes every change, and nothing else, visible |
| FatTables.FlushCopies | kernel/src/fat.rs:171-182 | a finished flush leaves all FAT copies equal when they were |
| FatGrow.FlushOrder | kernel/src/fat.rs:171-182 | of two cached sectors the disk never shows the later one alone: this is the order a growing directory depends on |
| FatTables.Allocate | kernel/src/fat.rs:594-611 | the first free clusters of the partition, ascending, linked in the table and nowhere else; none exactly when there are too few |
| FatFree.FreeChain | kernel/src/fat.rs:614-625 | the clusters of the chain read free, every other entry and all data stay, and FSInfo's count rises by as many; a broken chain is refused with nothing written |
| FatFree.AdjustEffect | kernel/src/fat.rs:628-645 | moving FSInfo's count changes no FAT entry, no FAT copy and no data, and keeps the count between 0 and the number of clusters |
| FatWrite.MovedTwice | kernel/src/fat.rs:628-645 | starting from a true count, two moves whose sums stay in range leave a true count: the clamp does not bite |
| FatSlots.SlotWritten | kernel/src/fat.rs:648-664 | rewriting one directory slot changes that slot of that directory and nothing else on the volume |
| FatRoundTrip.EntryAdded | kernel/src/fat.rs:314-367 | slots built for a new entry and put in a free run of a directory read back as that entry and no other: the same name, cluster, size and kind, under an 8.3 alias that no entry had; every other item is where it was |
| FatNames.ShortFor | kernel/src/fat.rs:775-833 | the short name chosen is never one that is taken, and long-name slots come with it exactly when the name is not plain |
| FatDirectory.FillRun | kernel/src/fat.rs:314-367 | filling part of a free run with the slots of one entry adds that entry and moves no other |
| FatFind.FindPath | kernel/src/fat.rs:391-405 | the loop over the parts of a path finds what the tree of the volume has there, names compared by their folded forms |
| FatTree.PathUnique | kernel/src/fat.rs:391-405 | on a well-formed volume a directory has one path, up to the case of names |
| FatGrow.GrowTree | kernel/src/fat.rs:735-751 | a directory that grows by one zeroed cluster leaves the volume well formed, and every path reads as before |
| FatEnter.AddEntry | kernel/src/fat.rs:669-756 | it succeeds exactly when there is a run of free slots or a free cluster that makes one; it is atomic at every prefix if and only if the directory does not grow in the unsafe order |
| FatEnter.UnsafeOrder | kernel/src/fat.rs:738-745 | grown in the unsafe order, the writes go through an image that no tree of files fits: a directory leads to a free cluster |
| FatFiles.WriteFile | kernel/src/fat.rs:487-527 | it succeeds exactly when there is a place, clusters and slots enough. After every prefix of its writes the volume is well formed and reads wholly as before, or with the whole new file at its path, if and only if the directory does not grow in the unsafe order, a condition on the volume before the call; it holds for every replacement, and for every new entry that finds a run of free slots. Completed, the volume is sound: no cluster in two chains, none in use free, all FAT copies equal, FSInfo's count exact |
| FatFolders.MakeDir | kernel/src/fat.rs:531-553 | the same for a new directory, which is empty and has its "." and ".." before its entry is written |
| FatRemove.Remove | kernel/src/fat.rs:556-570 | it succeeds exactly on an entry that has nothing below it. At every prefix of its writes the volume is well formed and only paths through the name, or through what is left of it, read differently; completed, the volume is sound, and the path is gone with all others as before if and only if no other entry of its directory has the name |
| FatDelete.DeletedItems | kernel/src/fat.rs:556-570 | with the first slots of an entry deleted the reader finds every other entry as it was, and that one under the name its remaining slots give, or not at all; with the last one deleted it is gone |
| FatWitness.UnsafeVolume | kernel/src/fat.rs:735-751 | a sound volume of 133 sectors on which the condition fails for the path "A" |
| FatWitness.TwinsVolume | kernel/src/fat.rs:556-570 | a sound volume with two entries "A", of which `remove` takes one |
| FatWitness.DotLost | kernel/src/fat.rs:775-833 | "A." is taken, and read back as "A" |
| FatFormat.EntryBytes | kernel/src/fat.rs:149-168 | the FAT entry of a cluster is the four bytes at four times its number, without the highest four bits |
| FatFormat.ClusterSectors | kernel/src/fat.rs:256-258 | cluster 2 is the first of the data, and the others follow |
| FatFormat.SlotBytes | kernel/src/fat.rs:314-329 | slot k of a directory is its bytes from 32 k on |
| FatFormat.EntrySlotBytes | kernel/src/fat.rs:355-361 | cluster, size and kind of an entry at their bytes of its slot |
| FatFormat.ShortSlotBytes | kernel/src/fat.rs:701-706 | the 32 bytes of the short slot of a new entry |
| FatFormat.LongSlotBytes | kernel/src/fat.rs:684-700 | the 32 bytes of a long-name slot: its number, with 0x40 on the last piece, the checksum, thirteen units at their places, a zero and 0xFFFF behind the name |
| FatFormat.ChecksumTurns | kernel/src/fat.rs:842-845 | for each byte of the short name the checksum turns right by one bit and takes the byte in |
| FatFormat.ShownBytes | kernel/src/fat.rs:849-864 | what a short slot alone shows, its two case flags and 0x05 included |
| FatFormat.AliasBytes | kernel/src/fat.rs:807-830 | an alias: letters of the base or FICHIE, a tilde, a number, letters of the extension, spaces |
| FatFormat.FirstAlias | kernel/src/fat.rs:814-833 | the alias taken is the first in number that is not in use; there is none exactly when all 999,999 are |
| FatFormat.CountBytes | kernel/src/fat.rs:628-645 | FSInfo is one with its signatures in place, and the count is at byte 488 |
| FatFormat.RepointBytes | kernel/src/fat.rs:514-521 | replacing a file changes the cluster, the size and the dates in its slot and no other byte |
| FatFormat.PartsBack | kernel/src/fat.rs:391-405 | names joined by slashes come back as the parts of the path |
| BootText.SwitchedBoots | kernel/src/install.rs:254-257 | after the switch the text boots the target if and only if the text did not have the target's line already; the length never changes |
| Install.OneDigit | kernel/src/install.rs:254-257 | the switch changes one byte of limine.conf, or none |
| Install.Install | kernel/src/install.rs:231-271 | it returns the slot it updated exactly when every check passes. At every prefix of its writes, and whatever sector writes since the last flush are lost, only the other slot and limine.conf differ; the slot holds a mixture of its old and new sectors, and limine.conf is the old text, or the switched one with the verified kernel whole in the slot. What is written is a function of the disk before the call |
| InstallPaths.RunningA | kernel/src/install.rs:231-271 | when slot a runs, the file at "/boot/kernel-a" is as it was after any stop; on success the kernel, then zeros, is at "/boot/kernel-b" and the text at "/boot/limine/limine.conf" has "default_entry: 2" |
| InstallPaths.RunningB | kernel/src/install.rs:231-271 | when slot b runs, the same with the two names exchanged and "default_entry: 1" |
| InstallPaths.LinesAre | kernel/src/install.rs:254-256 | the line of a slot is in a text exactly when "default_entry: 1", or 2, is somewhere in it |
| Install.UpdateSafe | kernel/src/install.rs:231-271 | so if limine.conf boots the running slot, then after any stop it boots the running slot, untouched, or the other one, which holds the verified kernel whole |
| Install.UpdateTakesEffect | kernel/src/install.rs:254-257 | a finished update boots the new slot if and only if limine.conf did not have its line below the one in force |
| Install.UpdateWithoutEffect | kernel/src/install.rs:254-257 | a limine.conf with both lines: the update writes it back as it was |
| InstallCrash.OneByte | kernel/src/install.rs:261-265 | an overwrite that changes one byte is all there or not at all, whatever the disk loses |
| InstallSteps.RunOrdered | kernel/src/install.rs:111-226 | over any run of inputs the disk is written only with an input that brings a kernel, after one that brought its manifest and, in between, one that brought the valid signature of that manifest |
| InstallSteps.RunConcat | kernel/src/install.rs:89-226 | a run of two lists of inputs is the run of the second from where the first one ended |
| InstallRuns.LateUpdate | kernel/src/install.rs:214-271 | an update written while limine.conf boots the slot it goes to is safe at every stop, whatever is lost, if and only if every mixture of the sectors of the old file and of the kernel is a verified kernel |
| InstallRuns.RunExact | kernel/src/install.rs:89-271 | over any run, if limine.conf boots the running slot at first, then after any stop, whatever was lost, the machine boots the kernel it ran, untouched, or the other slot with a verified kernel whole, if and only if every update written to a slot that limine.conf boots already is harmless in that sense |
| InstallRuns.RunSmall | kernel/src/install.rs:89-271 | unless a mixture of two kernels happens to be a third verified one, that is so if and only if no such update differs in two sectors from the file it replaces |
| Installers.Drive | kernel/src/install.rs:89-226 | the object, driven by a list of inputs, makes that run: its fields and the log of the disk are those of the functions on values |
| InstallTwice.SecondFails | kernel/src/install.rs:89-107 | a run of eight inputs, two updates in a row with genuine releases: a stop in the second one can leave a machine that boots neither kernel |
| InstallTorn.MixtureSurvives | kernel/src/install.rs:243-244 | whatever the mixture of the old and the new sectors of an overwritten file, a stop can leave it |
| InstallCrash.LostMixture | kernel/src/install.rs:243-244 | and nothing but such a mixture |
| Crashes.SurvivesAfter | kernel/src/install.rs:243-244 | whatever a disk loses, what came before a finished flush is there |
| Field25519.CarriedValue | kernel/src/x25519.rs:31-38 | a carry pass changes the number by exactly 2p times what leaves the top limb |
| Field25519.CarriedTwice | kernel/src/x25519.rs:31-38 | two passes after any multiplication bring every limb back within 16 bits and a little |
| Field25519.Multiply | kernel/src/x25519.rs:40-53 | the product modulo p for limbs within (-2^26, 2^26), every 64-bit step within range, the result limbs tight again |
| Field25519.Square | kernel/src/x25519.rs:55-58 | the square, in the same ranges |
| Field25519.SwapWord | kernel/src/x25519.rs:61-68 | the mask arithmetic on two signed words exchanges them for 1 and keeps them for 0 |
| Field25519.InvertAll | kernel/src/x25519.rs:71-82 | the squarings and multiplications of the inversion make the exponent p - 2 |
| Field25519.Invert | kernel/src/x25519.rs:71-82 | the result is the element to the power p - 2 |
| FieldBytes.CarriedThird | kernel/src/x25519.rs:93-95 | a third pass on tight limbs puts each of them in its 16 bits |
| FieldBytes.MinusDone | kernel/src/x25519.rs:97-107 | the borrow out of the subtraction of p says whether the number was below p |
| FieldBytes.Pack | kernel/src/x25519.rs:91-113 | for every element with limbs below 2^62 the 32 bytes are those of the number below p it stands for: three passes and two conditional subtractions are enough |
| FieldBytes.Unpack | kernel/src/x25519.rs:84-89 | the element of 32 bytes with the top bit dropped, in tight limbs |
| X25519.ClampedIs | kernel/src/x25519.rs:117-120 | the scalar of a secret: its three lowest bits cleared, everything from 2^254 up dropped, and 2^254 added; hence a multiple of 8 between 2^254 and 2^255 |
| X25519.ScalarMultiply | kernel/src/x25519.rs:116-182 | the bytes are those of the function X25519 of section 5 of RFC 7748, written as the RFC writes it, for every secret and every point, with every 64-bit step within range |
| X25519.SwapTwice | kernel/src/x25519.rs:135-173 | swapping back after a step and swapping again for the next one is the single swap of the RFC |
| Ed25519.D2Is | kernel/src/ed25519.rs:13-22 | the stored limbs of 2d are right: times 121666 they give -2 * 121665 |
| Ed25519.RootAll | kernel/src/ed25519.rs:64-73 | the exponent of the power loop is (p - 5) / 8 |
| Ed25519.PointAdd | kernel/src/ed25519.rs:76-90 | the four coordinates are those of the formulas of section 5.1.4 of RFC 8032, modulo p |
| Ed25519.SwapsAre | kernel/src/ed25519.rs:99-110 | over any commutative monoid the pair of the swap ladder is n and n + 1 times the point, for the bits taken so far |
| Ed25519.LadderSums | kernel/src/ed25519.rs:99-110 | read through any map that carries the formulas, on a set of points closed under them, over to such a monoid, the ladder is the k-fold sum for every 256-bit k |
| Ed25519.ScalarSum | kernel/src/ed25519.rs:99-110 | so is what `scalar_multiply` computes, with the formulas and 2d of the curve |
| Ed25519.ScalarMultiply | kernel/src/ed25519.rs:99-110 | the method on limbs computes that ladder for every 32-byte scalar |
| ReduceL.FoldDone | kernel/src/ed25519.rs:161-172 | folding one limb down changes the number by a multiple of L, and the limbs stay small |
| ReduceL.NearZero | kernel/src/ed25519.rs:173-182 | after the folds, L taken away as often as the top limb says leaves a number between -L and L |
| ReduceL.Reduce | kernel/src/ed25519.rs:156-189 | the 32 bytes are those of the 64-byte number modulo L, every signed limb within its bounds on the way |
| ReduceL.Canonical | kernel/src/ed25519.rs:193-201 | accepts exactly the numbers below L |
| ReduceL.OrderIs | kernel/src/ed25519.rs:20 | the bytes of L are those of 2^252 + 27742317777372353535851937790883648493 |
| Poly1305s.LimbsValue | kernel/src/chacha.rs:72-82 | the masks of the five limbs make r as section 2.5 of RFC 8439 clamps it |
| Poly1305s.SumsValue | kernel/src/chacha.rs:94-101 | the twenty-five products stand for the product modulo 2^130 - 5 |
| Poly1305s.Block | kernel/src/chacha.rs:84-121 | one block added, multiplied and carried, no 32-bit or 64-bit word overflowing |
| Poly1305s.BlockIs | kernel/src/chacha.rs:84-121 | which absorbs the block as the RFC says |
| PolyFinish.Normalise | kernel/src/chacha.rs:159-170 | one chain of carries is enough: every limb is below 2^26 after it |
| PolyFinish.Choose | kernel/src/chacha.rs:172-190 | the masked choice is the number modulo 2^130 - 5 |
| ChaCha.Poly1305.Update | kernel/src/chacha.rs:123-147 | a piece of the message taken in, as if it had come joined to what came before |
| ChaCha.Poly1305.Finish | kernel/src/chacha.rs:149-205 | the tag of section 2.5 of RFC 8439 of everything fed, however it was cut |
| ChaCha.AppliedTwice | kernel/src/chacha.rs:52-59 | the key stream applied twice is gone |
| ChaCha.OpenSeal | kernel/src/chacha.rs:231-258 | data opens to a plain text exactly when it is the sealing of that text: opening undoes sealing and accepts nothing else |
| ChaCha.Open | kernel/src/chacha.rs:239-258 | the method opens just what this says |
| AeadFormats.SealedBytes | kernel/src/chacha.rs:231-235 | a sealed text is the plain one under the key stream from block 1 on, then its tag under the first half of block 0 |
| AeadFormats.MacDataBytes | kernel/src/chacha.rs:208-218 | what is authenticated: both texts, each with zeros up to sixteen bytes, then their two lengths on eight bytes, lowest first |
| AeadFormats.XorBits | kernel/src/chacha.rs:52-59 | a bit of the result is set exactly when one of the two is |
| Streams.FoldOn | kernel/src/sha256.rs:41-69 | what was left over, folded with the next piece, is the fold of both pieces at once |
| Sha256s.HashPieces | kernel/src/sha256.rs:41-90 | for every way to cut a message into updates the digest is the compression function folded over the padded message of section 5.1.1 of FIPS 180-4 |
| Sha256s.Sha256.Finish | kernel/src/sha256.rs:71-90 | the padding loop ends, pads as the standard says, and its bytes do not count in the length |
| Sha512s.HashPieces | kernel/src/sha512.rs:107-150 | the same with the padding of section 5.1.2 |
| HashFormats.Padding256 | kernel/src/sha256.rs:74-83 | padding fills whole blocks, as few as hold the message, 0x80 and the length in bits on eight bytes, with zeros between |
| HashFormats.Padding512 | kernel/src/sha512.rs:134-145 | the same with blocks of 128 bytes and a length of sixteen |
| HashFormats.WordBytesAt | kernel/src/sha256.rs:80-82 | byte j of word i of the digest, highest first |
| HashFormats.Start256 | kernel/src/sha256.rs:27-34 | the words it starts from are the first 32 bits of the fractional parts of the square roots of the first eight primes |
| HashFormats.Start512 | kernel/src/sha512.rs:101-105 | the same with 64 bits |
| TlsRecords.NoncesOnce | kernel/src/tls.rs:76-83 | no two of 2^64 records in a row of one key have the same nonce |
| AeadFormats.NonceBytes | kernel/src/tls.rs:76-83 | the nonce is the record number on twelve bytes, highest first, folded into the base |
| TlsRecords.OpensTo | kernel/src/tls.rs:155-163 | a record opens to a kind and data exactly when it is their sealing with some zeros behind and the kind is not zero |
| TlsRecords.OpenRecordBack | kernel/src/tls.rs:140-163 | a sealed record opens to what it was made of if and only if its kind is not zero |
| TlsRecords.ZeroKind | kernel/src/tls.rs:155-163 | a record of kind 0 that carries a 7 opens as an empty record of kind 7 |
| TlsRecords.InStep | kernel/src/tls.rs:140-163 | records sealed from one key state and opened in order from an equal one give the same kinds and data |
| Tls.Cut | kernel/src/tls.rs:238-284 | two pieces do what both do at once, unless the first one breaks or ends the connection |
| Tls.AnyCut | kernel/src/tls.rs:238-284 | for every way to cut the server's bytes the outcome, the bytes sent and the state, the unread inbox of a connection that is over aside, are those of one call |
| Tls.OnlyVerified | kernel/src/tls.rs:300-428 | in every run from the start that does not fail: the transcript is the hello and the server's whole messages in order, the keys are those of section 7.1 of RFC 8446 for it, and application data was received only after the server's Finished matched it (section 4.4.4) |
| TlsSchedule.ExpandsLabel | kernel/src/sha256.rs:183-192 | for every string that a reader of the HkdfLabel of section 7.1 of RFC 8446 reads as a length, "tls13 " with a name, and a context, the label expands to the first bytes of the HMAC of that string and a one |
| TlsSchedule.LabelOnce | kernel/src/sha256.rs:183-192 | no two strings read as the same label, and so different contexts give different ones |
| TlsSchedule.ScheduleIs | kernel/src/tls.rs:384-428 | the secrets of the client are the chain of section 7.1: three extractions, "derived" between them, and the four traffic secrets over the two transcript hashes |
| TlsSchedule.KeysAre | kernel/src/tls.rs:66-72 | key, iv and Finished of a secret are those of sections 7.3 and 4.4.4, the record number starting at zero |
| TlsSchedule.RunScheduled | kernel/src/tls.rs:338-428 | in every run that gets past the ServerHello, on any bytes, the secrets and keys held are that chain, for the share of the ServerHello and the transcript so far |
| TlsHandshake.Handshake | kernel/src/tls.rs:300-428 | a server that keeps to RFC 8446, its encrypted messages cut into records anyhow: the client ends connected, with the data keys of the schedule and all messages in its transcript, and its Finished is on the wire |
| Tls.OneSplit | kernel/src/tls.rs:300-336 | bytes are whole messages and a rest in one way only: the transcript depends on the bytes alone |
| Tls.FirstFlight | kernel/src/tls.rs:198-234 | the first flight is one whole record of one whole message, its lengths right, for any host name |
| Tls.Delivered | kernel/src/tls.rs:238-284 | whatever is sealed under the client's read keys is received, in order, however the network cuts it |
| Tls.Echo | kernel/src/tls.rs:287-297 | what a client seals, cut into records, another one with the same keys receives |
| Tls.FeedReceives | kernel/src/tls.rs:238-284 | what a start of the server's bytes delivers is a start of what they all deliver |
| TlsClients.Client.TakeIn | kernel/src/tls.rs:238-284 | the object, with its running hash for a transcript, does to its fields what the machine does to its state |
| TlsClients.Client.Seal | kernel/src/tls.rs:287-297 | the records of the data under the write keys, which move on by as many |
| TlsHellos.HelloRead | kernel/src/tls.rs:338-381 | for every ServerHello as section 4.1.3 of RFC 8446 lays it out, with any extensions: it gives the share of the last X25519 key share when it is no retry, has the offered suite and its last version is TLS 1.3, and is refused for the first of these that fails |
| TlsHellos.HelloBytes | kernel/src/tls.rs:198-233 | the first flight byte by byte: the legacy version, one suite, and the server name, group, signature schemes, version and key share |
| TlsClients.ReadGreeting | kernel/src/tls.rs:338-381 | the loop over the extensions reads what that says, on any bytes |
| Chunked.DecodeSent | kernel/src/http.rs:476-513 | every valid encoding of section 7.1 of RFC 9112, whatever comes behind it, decodes to its data from exactly its bytes if no chunk extension has a space before its semicolon, and is refused otherwise |
| Chunked.PrefixRefused | kernel/src/http.rs:476-513 | every proper prefix of a valid encoding is refused |
| Chunked.DecodeShape | kernel/src/http.rs:476-513 | whatever is accepted starts with a valid encoding of what is made of it |
| Chunked.HexDigitIs | kernel/src/http.rs:476-513 | the digits of a size are those of "0123456789abcdef" and "ABCDEF", at their values |
| Chunked.Dechunk | kernel/src/http.rs:476-513 | the loop accepts and refuses the same, sizes with their overflow check included |
| Chunked.SpaceRefused | kernel/src/http.rs:476-513 | "5 ;x" is a valid size line that is refused |
| Answers.Finish | kernel/src/http.rs:372-427 | the method gives the answer that the following members are about |
| Answers.ChunkedWhole | kernel/src/http.rs:372-427 | with chunked framing a page is shown if and only if every byte of the answer came, the data fits the limit and no redirect is followed; it is then the concatenated chunks |
| Answers.LengthWhole | kernel/src/http.rs:372-427 | with a length, if and only if that many bytes of the body came and fit |
| Answers.UnframedCut | kernel/src/http.rs:372-427 | with neither, whatever came and fits is shown: it is the whole body if and only if all of it came |
| Answers.FollowsTo | kernel/src/http.rs:372-427 | a redirect is followed exactly for the codes 301, 302, 303, 307 and 308, to the place its head names, when that resolves and fewer than five redirects led here |
| FetchKept.NextPiece | kernel/src/http.rs:302-310 | the segment with the number expected is the next piece of the stream, numbers modulo 2^32 |
| Fetching.Fetch.Step | kernel/src/http.rs:242-331 | a turn of the main loop does to the fields, what is sent included, just what the function `Stepped` does; for any list of segments of the server, lost, repeated, reordered and cut anyhow, what is taken in stays a prefix of the stream and what is held within the limit and the room for its head, and, unless the fetch fails, it grows by just the segments that have the expected number when they come |
| FetchKept.InOrderTaken | kernel/src/http.rs:302-310 | segments that follow each other from the expected one on are all taken |
| FetchKept.SteppedKept | kernel/src/http.rs:242-331 | whatever segments come in a turn, the answer so far, or the TLS client, is where all accepted bytes at once lead, and the number expected is behind them |
| FetchEnds.FetchedWhole | kernel/src/http.rs:242-331 | the SYN answered and the whole stream delivered in order over any turns, the last segment with a FIN or the last record with close_notify: the fetch ends with the page, the redirect or the failure that the whole answer says |
| FetchEnds.ChunkedFetched | kernel/src/http.rs:242-427 | so a chunked page that fits is shown, in the clear or through TLS |
| FetchEnds.LengthFetched | kernel/src/http.rs:242-427 | and so is one with a length |
| FetchEnds.NeverGivesUp | kernel/src/http.rs:258-262 | until the server's SYN comes a conversation ends if and only if a reset comes, however long it is silent |
| FetchEnds.SilenceEnds | kernel/src/http.rs:324-330 | after it, a silence longer than PATIENCE ends it: failed when nothing came, and otherwise with what came |
| FetchEnds.ResetFails | kernel/src/http.rs:280-283 | a reset ends it, whatever came before |
| FetchEnds.ToldCarries | kernel/src/http.rs:201-216 | data goes out in order, in segments of at most 1400 bytes, one number behind the other modulo 2^32 |
| FetchEnds.RequestSent | kernel/src/http.rs:284-305 | the server's SYN is acknowledged and the whole request follows from the number the server expects |
| Fetching.DoneChunked | kernel/src/http.rs:335-427 | when a chunked answer is shown, in the clear or through TLS, every byte of it came and the body is the concatenated chunks |
| Fetching.DoneLength | kernel/src/http.rs:335-427 | when one with a length is shown, it is that many bytes of the body the server sent |
| PhysicalMemory.OneList | kernel/src/memory.rs:12-18 | memory holds at most one free list from a given head |
| PhysicalMemory.NoCycle | kernel/src/memory.rs:12-18 | which never comes back to a frame |
| PhysicalMemory.Frames.constructor | kernel/src/memory.rs:26-40 | the free frames are the whole usable frames of the map but frame 0 and those kept |
| PhysicalMemory.Frames.Allocate | kernel/src/memory.rs:53-67 | the top of the list, zeroed, and no word outside it changed; none exactly when the list is empty |
| PhysicalMemory.Frames.Deallocate | kernel/src/memory.rs:74-77 | the frame goes on top of the list, and only its first word changes |
| PhysicalMemory.Returned | kernel/src/memory.rs:53-77 | a frame taken and given back is the one handed out next |
| Paging.SamePage | kernel/src/paging.rs:15-18 | two addresses have the same four indices exactly when they are in the same page |
| PagingHardware.AddressBack | kernel/src/paging.rs:15-18 | an address is its four indices, highest first, and its place in the page |
| PagingHardware.ProcessorFinds | kernel/src/paging.rs:64-84 | what the tables say of an address is what a processor finds that walks them by shifting 39, 30, 21 and 12 bits and looks at bits 0, 7 and 12 to 51 |
| PagingHardware.MapSeen | kernel/src/paging.rs:27-126 | a page mapped: the processor finds the frame there, and everywhere else what it found before |
| PagingHardware.MadeBits | kernel/src/paging.rs:6-11 | an entry made for memory is present and writable; one for a device is written through and not cached, too |
| Paging.EmptyTree | kernel/src/paging.rs:90-126 | a root of zeros is a tree of tables that maps nothing |
| Paging.HungWalk | kernel/src/paging.rs:103-113 | a new zeroed table hung into the tree changes no translation |
| Paging.Put | kernel/src/paging.rs:90-126 | what it answers is determined by the tables before and the number of free frames; a page that was not mapped is mapped to the frame with the flags exactly on success, and every other page translates as before, whatever happens |
| Paging.MapDevice | kernel/src/paging.rs:55-58 | on success the page leads to the frame; it is not cached if and only if it was not mapped before or had the device flags already |
| Paging.CachedDevice | kernel/src/paging.rs:55-58 | a page mapped as memory and then as a device: both are done, and it stays cached |
| Paging.FlagsOf | kernel/src/paging.rs:64-84 | the flags of the entry the page translates to, at whatever level it is |
| Paging.Step | kernel/src/paging.rs:27-126 | whatever is asked of the tables and the allocator, the tables stay a tree apart from the free frames, the free list repeats no frame, and only the page asked for translates differently |
| EventRing.DecodeEncode | kernel/src/events.rs:24-40 | words and events match one to one, an unused byte of the clock word aside |
| EventRing.TakenIs | kernel/src/events.rs:44-53 | of a burst, as many events as there is room for are taken, in order, behind those that wait |
| EventRing.Ring.Pop | kernel/src/events.rs:56-64 | with any number of handlers between its loads and stores a pop is as if done at once: the oldest event, or none if none waited when it looked |
| EventRing.Ring.Run | kernel/src/events.rs:44-74 | over any schedule of bursts and pops, what was given out followed by what waits is what was accepted, in order; both are those of the step-by-step specification run over the schedule, and every other event offered is in the count of lost ones |

## Findings

What the code and its own descriptions promise and the code does not keep,
each with the exact condition under which it does.

- **A growing directory.** The header of kernel/src/fat.rs (lines 8-16) says
  that nothing ever points at garbage after a stop. `allocate` reads the FAT
  sectors upwards as far as that of the added cluster, and `flush` writes them
  in that order: when the sector of the directory's last cluster comes before
  that of the added one, a stop between the two leaves the directory leading
  to a free cluster.
  `FatFiles.WriteFile` and `FatFolders.MakeDir` are atomic if and only if
  `FatFiles.InOrder` holds before the call; `FatEnter.UnsafeOrder` shows the
  failing image and `FatWitness.UnsafeVolume` a volume.
- **Two entries of one name.** `remove` takes the first of them, and the path
  then leads to the second. `FatRemove.Remove` leaves the path empty if and
  only if `FatRemove.SoleName` holds; `FatWitness.TwinsVolume` is a volume
  where it does not.
- **A dot at the end, and long names.** A valid 8.3 name with a dot at its end
  loses it; a name that takes more than 31 long-name slots comes back garbled,
  since the reader keeps five bits of a slot's number while 255 characters may
  be 510 units. `FatFind.StorableIs` gives the condition,
  `FatWitness.DotLost` a name.
- **limine.conf with both lines.** `install` leaves the text as it is when the
  wanted line is anywhere in it. A finished update boots the new kernel if and
  only if it was nowhere: `Install.UpdateTakesEffect`,
  `Install.UpdateWithoutEffect`.
- **A second update before the machine has started again.** `start` asks only
  whether an update is under way. The slot it then overwrites is the one
  limine.conf boots, and a stop can leave any mixture of the old and the new
  sectors in it. A run is safe if and only if all mixtures of such a rewrite
  are verified kernels (`InstallRuns.RunExact`), which, chance aside, means that
  it changes one sector at most (`InstallRuns.RunSmall`);
  `InstallTwice.SecondFails` is the run of inputs that fails.
- **A space before a chunk extension.** The grammar of section 7.1.1 of RFC 9112 has
  room for white space before the semicolon; such a size line is refused. A valid encoding is decoded if and only if none of its extensions
  starts so: `Chunked.DecodeSent`, `Chunked.SpaceRefused`.
- **A record of kind zero** is taken for padding and opens as something else:
  `TlsRecords.OpenRecordBack`, `TlsRecords.ZeroKind`.
- **A device page mapped before.** `map_device` accepts a page that already
  leads to the frame with other flags, and it stays cached:
  `Paging.MapDevice` says when, `Paging.CachedDevice` is such a page.
- **A server that never answers.** PATIENCE is said to be how long each step may
  take (kernel/src/http.rs:27-29), but each SYN sent again, every 900 ms,
  starts it anew: until the server's SYN comes, a fetch ends if and only if a reset
  comes, `FetchEnds.NeverGivesUp`. After it, silence ends it: `FetchEnds.SilenceEnds`.
- **An answer without framing, and a FIN.** A FIN ends the conversation
  wherever it comes, before data that is still under way too, and so does the
  end of patience. With chunks or a length a cut answer is not shown; with
  neither it passes for a whole one: `Answers.UnframedCut`.

## Left out

- FatLayout.Volume.Ok: `Volume::open` is not modelled, and neither is the partition table; a volume is given with what `open` has checked, and with no more than 0x0FFFFFF6 clusters, which `open` does not check.
- FatFiles.WriteFile: starts from a sound volume and, for a new name, from one that reads back as it is written (`FatFind.StorableIs`); a read or write error of the disk, text that is not UTF-8 and the drawing of time stamps are not modelled.
- FatFormat.ShortSlotBytes: date and time of a stamp are given as the two words they are stored as; making them of a calendar date is not modelled.
- FatFolders.MakeDir: the same; that ".." of a directory stays right is not stated, as nothing reads it.
- FatRemove.Remove: stopped half-way, the entry may be left under another name; which one it is, is stated for the slots of its directory (`FatDelete.DeletedItems`) and not for paths.
- FatTree.Lookup: lower case is a function of the volume, `fold`; that of Unicode is not part of this model.
- Install.Install: the names of the two slots fold to different ones (`Install.SlotsApart`); reading text as UTF-8 is a parameter.
- Installers.Drive: downloads are inputs, and verifying a signature, parsing a manifest and comparing builds are parameters.
- Ed25519.LadderSums: the group law of the curve is not proved: points are read as elements of a monoid by a map that is given.
- Ed25519.ScalarMultiply: encoding, decoding and comparing points, and `verify` as a whole, are not modelled; constant time is not stated, here or for X25519.
- X25519.ScalarMultiply: that p is prime, so that the power p - 2 is an inverse, is not proved.
- Sha256s.HashPieces: the compression function is a parameter, as it is for SHA-512; HMAC and HKDF-Extract are a parameter of the TLS client, and PBKDF2 is left out.
- ChaCha.Open: the ChaCha20 block function is a parameter.
- Tls.OnlyVerified: certificates are hashed and not checked, as in the code; x25519 and HMAC are parameters, and that secrets are hard to guess is not a statement of this model.
- Fetching.Fetch.Step: names are resolved, ports chosen and segments of other conversations put aside elsewhere; the server's segments are any list, of a stream numbered within 4 GiB. The text of the request is a parameter.
- Answers.ChunkedWhole: reading headers and resolving the address of a redirect are parameters.
- PhysicalMemory.Frames.constructor: the memory map is one whose usable regions do not overlap and lie in memory; the direct map is the identity.
- Paging.Put: the root table is a parameter in place of CR3; flushing translations is not modelled, and huge pages are met and never made.
- EventRing.Ring.Run: there is one consumer, as in the kernel, and a handler runs whole; the atomics are read and written in program order.
- Drivers, drawing, the shell, settings and the network stack below TCP are hardware access, painting and text handling, and not part of this model; neither is the Linux edition.
