# A model of the ext4 driver's storage core

This project models, in Dafny, six parts of a user-space ext4 driver for macOS and the tools around it, and proves what each of them is for. A reader who wants the main results first can go to these lemmas:

- `LuksDevice.Container.DeviceIsFlatArray`: a decrypting block device, stacked on an aligned read-modify-write window over a block-addressed medium, is a flat array of bytes for every run of reads and writes.
- `LuksUnlock.Request.UnlockUndoesFormat`, `Luks2Header.TornPrimary` and `Luks2Header.SurvivesIffUsual`: unlocking undoes formatting, and a two-copy header survives an update torn anywhere, if it has the usual size.
- `JsonWalk.WalkIsChildren` and `JsonLookup.PrintParseFollow`: walking tokens by byte range is walking the tree, and print, parse, look up is the identity.
- `Ext4Check.CheckIsExact`: the structural checker reports no problem exactly on well-formed volumes, and always ends; `Ext4Check.FilesAreInodesIff`: when its count of files is one.
- `DriveCache.CrashSafety`, `DriveCut.SafeAtEveryCutIff`, `DriveCut.SafeAtTheCutIff`, `DriveCache.EvictionNeverShowsIff` and `DriveCache.CarefulReadsAreFlat`: what a volatile drive cache may lose, exactly which drives are safe at a power cut, exactly when no eviction a drive may draw can be seen, and runs in which none ever is.
- `Crc.CrcIsTheRemainder`, `Ext4Csum.StampGroupAgrees` and `Ext4Csum.AliasedBitmapAgreesIff`: the table-driven CRCs are polynomial remainders, stamping leaves every check agreeing, and exactly when it still does where a bitmap lies on its own checksum.
- `Lifecycle.ExactlyOneOwner`, `Lifecycle.LastCloseFrees`, `Lifecycle.FreedWhileOpenIff` and `Lifecycle.NeverFreedWhileOpen`: the deferred deletion of open files, over every interleaving.
- `CloseVolume.EveryRunIsOrderly`, `CloseVolume.NothingLeaks`, `CloseVolume.ReloadMounts` and `CloseVolume.LoadClosesMountIff`: in every interleaving of probes, loads, checks and teardowns, mounts, unmounts and destructions happen in order, one device at a time is mounted and none is left behind; a reload ends mounted; and exactly which loads close the mount of another device.

## How it is modelled

Each module follows one source file or one part of it. Where the source changes a buffer or an object in place, a method over an array or a class does the same, and its contract ties the new state to a function of the old one; lemmas about that function carry the results. Where the source is a concurrent protocol, the atomic bodies are functions on a state, a run is any sequence of steps of any calls, and small classes hold the lock bodies.

Assumptions that stand for code outside the model:

- AES is a pair of inverse functions on 16-byte blocks for each key; hashes and PBKDF2 are functions of fixed output length. A cipher or hash call may fail at any time.
- The LUKS1 formatter of `UnlockUndoesFormat` is a specification only (section 4 of the LUKS On-Disk Format Specification 1.2.3); the driver never writes a key slot. The writer of the LUKS2 header is the environment: primary first, then secondary, and a torn copy fails its checksum (`Luks2Header.MixturesFailByDigest` says what that asks of the digest).
- The checker sees the volume as two fixed functions, `getattr` and `readdir`.
- Every random choice of the drive model (which writes an eviction takes, the order at a power cut) is arbitrary.
- In the lifecycle, the core does what its header promises (`Core/shim/ext4_bridge.h:441-470`), and any core call may fail and then changes nothing. The executor runs one body at a time. A name is only created for a file that has one: neither `createLink` nor the core refuses an inode whose last name is gone.
- `Lifecycle.Allowed` lists what the framework is relied on for. Three of its clauses are not written down in the source: that no open lands between `removeItem`'s look at the open count and its unlink (`openItem` takes only `itemsLock`), that no open of an item lands while a close, deactivation or reclaim of the same item is in flight, and that nothing is renamed over the last name of an open file (`renameItem` never looks at the open count, and `ext4b_rename` frees at once). `OpenDuringRemove`, `ReopenDuringClose` and `RenameOverOpen` are runs that free an open file without them; `FreedWhileOpenIff` and `RenamedWhileOpenIff` say from which states one is freed.
- In the teardown, the core has one slot for a mounted device: a mount finds it taken and fails (`Core/shim/ext4_bridge.c:1378-1397`), an unmount gives it back, and so does destroying a device that is still mounted, which the model logs as an event of its own and which never happens.

Where the code and its documentation disagree, the model follows the code:

- `json.h` calls `size` the members of an object; the parser counts keys and values (`JsonWalk.WalkIsChildren`). The parser treats `:` and `,` as whitespace, so an object may end in a key without a value, which `json_object_key_at` sees and no other walker does (`JsonWalk.KeyPastTheCountIff`, `JsonWalk.DanglingKey`).
- `base64_decode` ignores the bits left over before the padding (`JsonScalars.LeftoverBitsAreIgnored`); `JsonScalars.CanonicalIff` says which strings are nevertheless the ones the encoder writes.
- A comment says that the checker counts a hard-linked file once (`Core/shim/ext4_check.c:73`); it counts directory entries (`Ext4Check.HardLinkIsCountedTwice`), and `Ext4Check.FilesAreInodesIff` says when the two are the same number.
- The drive model promises reads of the newest data, but an eviction can put a newer write on the medium under an older one still pending (`DriveQueue.StaleReadWitness`); `DriveCache.EvictionNeverShowsIff` says exactly when none can, before anything is drawn.
- `loadResource` is to close a mount only for a reload of the same device and to refuse a second device (`Extension/Ext4FileSystem.swift:257-261`). It compares the name of the device last seen, which a probe changes: `CloseVolume.LoadClosesMountIff` says when a load closes the mount, and `CloseVolume.LoadOfAnotherCloses` is a load of another device that does. After a declined probe nothing is refused there, but the core still refuses the mount.
- A group descriptor of a corrupt image can lay a bitmap over its own checksum; then stamp and check need not agree (`Ext4Csum.StampedAndWrong`). With both halves stored they do exactly when the bytes were the checksum's already (`Ext4Csum.AliasedBitmapAgreesIff`); with the low half alone other changes can go unseen (`Ext4Csum.StampedAndRightByChance`), and `Ext4Csum.BitmapAgreesByRegister` is the condition for every overlap. With `first_data_block` 0 and 1 KiB blocks the first descriptor lies in the superblock; the order of the stamps still makes all checks agree under the layout already parsed.

## Model

| member | source | states |
|---|---|---|
| AesXts.MulAlphaIsMulX | Core/crypto/aes_xts.c:66-85 | the tweak step is multiplication by x modulo x^128+x^7+x^2+x+1 (section 5.2 of IEEE Std 1619-2007) |
| AesXts.TweakIsAlphaPower | Core/crypto/aes_xts.c:66-85 | the j-th tweak is the first times x^j modulo that polynomial |
| AesXts.TweakIsUnique | Core/crypto/aes_xts.c:66-85 | and it is the only block in that residue class |
| AesXts.MulAlphaBijective | Core/crypto/aes_xts.c:66-85 | the step has an inverse on both sides, so no two tweaks merge |
| AesXts.GfMulAlpha | Core/crypto/aes_xts.c:66-85 | the two-word code in place computes that step on every 16-byte block |
| AesXts.XtsBlockAt | Core/crypto/aes_xts.c:177-227 | each block of the result depends only on its own block and its own tweak |
| AesXts.MaskEcbMaskIsXts | Core/crypto/aes_xts.c:200-226 | mask everything, one ECB pass, mask everything again with the recomputed chain equals block-by-block XTS for every multiple of 16 bytes |
| AesXts.XtsInverse | Core/crypto/aes_xts.c:177-227 | decrypting undoes encrypting, and the other way round, for any bijective block cipher |
| AesXts.AesXtsCryptSector | Core/crypto/aes_xts.c:177-227 | in place: EINVAL exactly for a bad length, the XTS of the range on success, no other byte ever changed |
| AfSplit.MergeUndoesSplit | Core/crypto/af_split.c:72-103 | merging undoes splitting for any key, stripe count and random stripes (section 2.4 of the LUKS On-Disk Format Specification 1.2.3) |
| AfSplit.DiffuseAt | Core/crypto/af_split.c:22-70 | each chunk of the diffusion, by itself, is the digest of its own number and its bytes, a short last one cut to its length |
| AfSplit.DiffuseInPlace | Core/crypto/af_split.c:22-70 | diffusing a buffer onto itself equals the pure diffusion, short last chunk included |
| AfSplit.AfMerge | Core/crypto/af_split.c:72-103 | the loop over stripes computes the merge, or an error leaves the output as it was |
| BlockDevice.WindowCovers | Extension/BlockDeviceBridge.swift:274-280 | the widened window is whole blocks and holds the request at its shift |
| BlockDevice.WindowInside | Extension/BlockDeviceBridge.swift:274-280 | it does not leave a device of whole blocks that holds the request |
| BlockDevice.BridgeIsFlat | Extension/BlockDeviceBridge.swift:282-333 | through the window, reading is slicing and writing is splicing: neighbours keep their bytes |
| BlockDevice.BlockDeviceBridge.Read | Extension/BlockDeviceBridge.swift:282-303 | success returns exactly the bytes asked for |
| BlockDevice.BlockDeviceBridge.Write | Extension/BlockDeviceBridge.swift:305-333 | success changes exactly the bytes given; EROFS exactly when not writable; a failed write changes nothing outside the range |
| LuksDevice.TweaksDistinct | Core/crypto/aes_xts.c:170-175 | no two 64-bit sector numbers share a tweak |
| LuksDevice.Plain64At | Core/crypto/aes_xts.c:170-175 | the tweak byte by byte: the eight low bytes of the sector number, the lowest first, then eight zeros |
| LuksDevice.Container.SectorOnDisk | Core/crypto/luks.c:510-524 | each sector of the plaintext is the XTS, by itself, of its place in the payload, under the number of the 512-byte unit it starts at |
| LuksDevice.CryptRunInverse | Core/crypto/luks.c:510-524 | a run of sectors decrypts to what was encrypted |
| LuksDevice.CryptRunConcat | Core/crypto/luks.c:510-524 | a run may be cut at any sector boundary and processed in parts |
| LuksDevice.CryptRunInPlace | Core/crypto/luks.c:510-524 | the in-place loop computes the run, tweaks counted in 512-byte units at any sector size |
| LuksDevice.SpanInside | Core/crypto/luks.c:1061-1087 | the sectors that cover a request inside the payload are inside the payload |
| LuksDevice.Container.ReadIsFlat | Core/crypto/luks.c:1061-1087 | reading through cipher and window is slicing the plaintext |
| LuksDevice.Container.WriteIsFlat | Core/crypto/luks.c:1089-1136 | writing is splicing the plaintext; ciphertext changes only in the covering sectors |
| LuksDevice.Container.DeviceIsFlatArray | Core/crypto/luks.c:1046-1136 | for every run of operations inside the payload, replies and final plaintext are those of a flat array, and no byte outside the payload changes |
| LuksDevice.Device.Read | Core/crypto/luks.c:1061-1087 | the code over the bridge returns that slice, or fails with the buffer untouched |
| LuksDevice.Device.Write | Core/crypto/luks.c:1089-1136 | the code over the bridge makes that splice; on failure only the covering sectors may differ; read-only is EROFS |
| LuksUnlock.Request.SlotOpens | Core/crypto/luks.c:550-640 | a slot built by derive, split and encrypt yields the master key |
| LuksUnlock.Request.LoopFindsFirst | Core/crypto/luks.c:955-978 | the slot loop stops at the first enabled slot that opens |
| LuksUnlock.Request.OpensIffSomeSlotDoes | Core/crypto/luks.c:937-980 | unlocking succeeds exactly when some enabled slot does, and returns the first one's result |
| LuksUnlock.Request.UnlockUndoesFormat | Core/crypto/luks.c:937-980 | with the passphrase of a formatted slot, unlocking returns a digest-verified key, the master key when no earlier slot yields another |
| LuksUnlock.Request.OpensWhatIsOnDisk | Core/crypto/luks.c:510-640 | the same from the bytes of the medium: header fields at their offsets, big-endian, and an area encrypted in 512-byte sectors under the two halves of the stretched passphrase (section 3.1 of the LUKS On-Disk Format Specification 1.2.3) |
| LuksUnlock.SlotIsRead | Core/crypto/luks.c:489-500 | a key slot laid out in its 48 bytes is read as what was written |
| LuksUnlock.Request.LastReason | Core/crypto/luks.c:955-978 | when none opens, the answer is that of the last enabled slot that failed for another reason than the passphrase |
| LuksUnlock.Request.CorruptIff | Core/crypto/luks.c:550-558 | a slot is corrupt exactly when its stripes or iterations are out of bounds, and no key opens a header whose own iterations are |
| LuksUnlock.TrySlotInto | Core/crypto/luks.c:550-640 | the code computes the slot's outcome; on failure the key buffer is zero or untouched |
| LuksUnlock.UnlockInto | Core/crypto/luks.c:937-980 | the code computes the unlock; on every failure the key buffer is zero or untouched |
| Luks2Header.Loader.LoadsNewestValid | Core/crypto/luks.c:312-342 | the valid copy with the highest sequence id is loaded, the primary on ties, nothing only when neither is valid |
| Luks2Header.CopyIsReadIff | Core/crypto/luks.c:259-310 | a copy is read exactly when it has its magic and version and its digest, over its first 4096 bytes with the 64-byte field zeroed and its whole metadata area, is the one stored; and everything read is what its bytes say |
| Luks2Header.DamageShows | Core/crypto/luks.c:232-256 | change any byte of the metadata area, or of the binary header outside the field, the size and the algorithm: the copy is no longer read, as long as the digest tells the two messages apart |
| Luks2Header.FieldDamageShows | Core/crypto/luks.c:232-256 | change a byte of the stored digest: the copy is no longer read, whatever the digest |
| Luks2Header.PaddingDoesNotCount | Core/crypto/luks.c:232-256 | change the field after the digest: the copy is read as before |
| Luks2Header.SizeIsBounded | Core/crypto/luks.c:259-310 | no copy of 4096 bytes or less, or above 4 MiB, is read |
| Luks2Header.MixturesFailByDigest | Core/crypto/luks.c:232-256 | what the torn-update results assume of the checksum, from the digest alone: no message that mixes the two has a digest that mixes theirs |
| Luks2Header.CopyDependsOnItsArea | Core/crypto/luks.c:259-310 | a copy that is read is judged by its own area alone, at any size |
| Luks2Header.TornPrimary | Core/crypto/luks.c:184-190 | any bytes of the primary already written and the rest not, mixtures failing their checksum: the old metadata is loaded until the last byte is written, then the new |
| Luks2Header.TornSecondary | Core/crypto/luks.c:184-190 | the same in the secondary, at any header size: the new metadata |
| Luks2Header.SurvivesIffUsual | Core/crypto/luks.c:312-342 | an update that changes two bytes of the primary or more survives a cut at every point exactly when the header has the usual size, unless a stray secondary lies at 16 KiB |
| Luks2Header.LostPrimary | Core/crypto/luks.c:312-342 | at another size, a primary caught between old and new leaves nothing to load, although the old secondary is complete |
| Json.JsonParse | Core/crypto/json.c:27-138 | the tokeniser with its explicit stack and caller's array computes the parse, each error included |
| JsonNesting.AcceptedIsSound | Core/crypto/json.c:27-138 | every accepted parse: tokens sorted by start, closed, linked to earlier parents, at most 32 ancestors, and a token's range holds another exactly when it is its ancestor |
| JsonNesting.NestedOrDisjoint | Core/crypto/json.c:27-138 | two ranges are disjoint or nested, and nested exactly along the parent links |
| JsonWalk.NextSibling | Core/crypto/json.c:142-151 | the token after a child's subtree, still inside the container, is the next child |
| JsonWalk.WalkIsChildren | Core/crypto/json.c:142-219 | on every accepted document the walk by byte range visits the tokens whose parent is the container, in order, `size` of them |
| JsonWalk.VisitsExactlyTheChildren | Core/crypto/json.c:142-219 | the same without the walk: each child once, ascending, nothing else |
| JsonWalk.JsonSkip | Core/crypto/json.c:142-151 | the loop steps past exactly the tokens that start before this one ends |
| JsonWalk.JsonEquals | Core/crypto/json.c:153-159 | true exactly for a token in range with this text |
| JsonWalk.ObjectGet | Core/crypto/json.c:169-187 | the value after the first string key with this text among the container's items, or -1 |
| JsonWalk.ArrayGet | Core/crypto/json.c:189-203 | item n of an array exactly when there is one, else -1 |
| JsonWalk.ObjectCount | Core/crypto/json.c:205-219 | half the items, rounded down |
| JsonWalk.ObjectKeyAt | Core/crypto/luks.c:361-373 | item 2n of an object when there is one, a last key without a value included, else -1 |
| JsonWalk.KeyPastTheCountIff | Core/crypto/luks.c:361-373 | on every accepted document: this finds a key past the last that `json_object_count` counts exactly when the object's `size` is odd; it is the last child then, and no look-up by name finds it |
| JsonWalk.DanglingKey | Core/crypto/luks.c:361-373 | a document with such a key |
| JsonPrint.ParseUndoesPrint | Core/crypto/json.c:27-138 | parsing a printed document gives exactly its tokens if there are enough of them and it is at most 32 deep, and fails otherwise |
| JsonPrint.StringEndsAt | Core/crypto/json.c:27-138 | the end of a string is the first quote that is not escaped, escapes counted in pairs, or the end of the document |
| JsonPrint.OneCharacter | Core/crypto/json.c:27-138 | which characters are blanks, which make a primitive and which are refused, by the documents of one character |
| JsonLookup.GetIsLookup | Core/crypto/json.c:169-187 | on printed documents `json_object_get` is first-match association lookup |
| JsonLookup.ElementIsNth | Core/crypto/json.c:189-203 | and `json_array_get` the n-th element |
| JsonLookup.TextIsKept | Core/crypto/json.c:153-159 | a string or primitive is found with its own text and kind |
| JsonLookup.PrintParseFollow | Core/crypto/json.c:27-187 | print any document that fits, parse it, follow any names: the value the document has there, or nothing exactly when it has none |
| JsonScalars.GetU64 | Core/crypto/json.c:234-256 | a number is returned exactly for 1 to 20 decimal digits whose value fits 64 bits, and it is that value |
| JsonScalars.U64RoundTrip | Core/crypto/json.c:234-256 | every 64-bit number printed in decimal is accepted and read back |
| JsonScalars.DecodeUndoesEncode | Core/crypto/json.c:270-305 | decoding undoes the encoding of section 4 of RFC 4648 |
| JsonScalars.Base64Decode | Core/crypto/json.c:270-305 | the code decodes exactly the strings that decode and fit the buffer, and writes nothing past the result |
| JsonScalars.CanonicalIff | Core/crypto/json.c:270-305 | of the strings that decode, exactly those whose bits left over before the padding are zero are the encoding of what they decode to |
| JsonScalars.LeftoverBitsAreIgnored | Core/crypto/json.c:295-303 | one that is, and one that is not and decodes alike |
| Ext4Check.VisitMeasure | Core/shim/ext4_check.c:223-265 | each turn of the worklist takes one from unmarked inodes plus stack, so every walk ends and pushes each directory at most once |
| Ext4Check.RunKeeps | Core/shim/ext4_check.c:117-265 | the walk's invariant, kept to the end of the run |
| Ext4Check.CheckIsExact | Core/shim/ext4_check.c:117-271 | no problem is reported exactly when the reachable directories form a tree, every entry names a readable inode with links and an agreeing type, and link counts are subdirectories + 2 or at most 1 |
| Ext4Check.CheckCounts | Core/shim/ext4_check.c:166-182 | no directory is visited twice; `files` is the number of entries of visited directories that name something else; on a well-formed volume `directories` is the number of reachable directories |
| Ext4Check.FilesAreInodesIff | Core/shim/ext4_check.c:73-78 | on every volume `files` is at least the number of inodes those entries name, and equal to it exactly when no two of them name the same one |
| Ext4Check.SoundFilesIff | Core/shim/ext4_check.c:73-78 | on a well-formed volume, of the volume alone: `files` is the number of files with a name exactly when no file has two |
| Ext4Check.HardLinkIsCountedTwice | Core/shim/ext4_check.c:73-78 | a well-formed volume with one file under two names, counted twice |
| Ext4Check.InodeSet.Mark | Core/shim/ext4_check.c:87-92 | the bitmap gains exactly this inode |
| Ext4Check.InodeSet.Seen | Core/shim/ext4_check.c:80-85 | in the bitmap, or not a number it has a bit for |
| Ext4Check.InodeStack.Push | Core/shim/ext4_check.c:59-72 | the growing array gains one at the end, or nothing when memory runs out |
| Ext4Check.WalkCtx.HandleEntry | Core/shim/ext4_check.c:117-183 | the callback does to the tables and counters what the walk's step does |
| Ext4Check.WalkCtx.VisitOne | Core/shim/ext4_check.c:223-265 | one directory: same effect as the walk's turn, and the measure falls |
| Ext4Check.CheckTree | Core/shim/ext4_check.c:185-271 | 0 with no problem implies a well-formed volume, also when memory ran out on the way; a well-formed volume gives no problem; EIO and EFBIG exactly for a count of zero or too many inodes |
| DriveQueue.EvictionExactly | tools/ext4dump.c:340-392 | after an eviction a byte shows the newest surviving write that covers it, else what it showed before |
| DriveQueue.EvictionKeepsView | tools/ext4dump.c:340-392 | nothing changes for the reader when no evicted write overlaps an older survivor |
| DriveQueue.StaleReadWitness | tools/ext4dump.c:340-392 | two writes to one byte, the second evicted: the reader sees the first |
| DriveQueue.EvictionInvisibleIff | tools/ext4dump.c:340-448 | for one choice of victims: whatever the data, the eviction is invisible exactly when no survivor covers a byte whose newest write was evicted |
| DriveQueue.EvictionConserves | tools/ext4dump.c:340-392 | evicted and surviving writes together are the old queue |
| DriveQueue.EvictionConservesBytes | tools/ext4dump.c:340-392 | and so are their byte counts |
| DriveCache.WriteKeeps | tools/ext4dump.c:554-613 | a successful write shows its bytes over the old view unless it evicts a stale one; a failed one through the cache shows nothing new; `pending_bytes` stays the summed length |
| DriveCache.EvictKeeps | tools/ext4dump.c:340-392 | a failed eviction keeps the view and the queue |
| DriveCache.EarlyWritesInvisible | tools/ext4dump.c:340-392 | writes that reach the medium early and stay pending show nothing new |
| DriveCache.CrashSafety | tools/ext4dump.c:309-431 | over any run of writes, evictions, barriers and a power cut, barriers honoured or no cache: every byte of the medium is its value at the last barrier or that of a write issued since which covers it |
| DriveCut.SafeAtEveryCutIff | tools/ext4dump.c:397-636 | whenever the power goes and whatever share of the queue is lost: a new drive leaves every byte explained exactly when barriers are honoured or there is no cache |
| DriveCut.SafeAtTheCutIff | tools/ext4dump.c:397-636 | for one set of settings: exactly then, or when the cut comes never, or so early that the queue holds one write and keeps it, or two of which one is empty and keeps both |
| DriveCache.NothingAfterTheCut | tools/ext4dump.c:554-636 | after the cut the medium never changes |
| DriveCache.BarrierIsDurable | tools/ext4dump.c:615-636 | a barrier makes the medium equal what reads showed, and empties the queue |
| DriveCache.EvictionNeverShowsIff | tools/ext4dump.c:340-448 | a queue on which no eviction that may be drawn changes a read, whatever the data: exactly one with no byte of the medium under two pending writes |
| DriveCache.ReadYourWrites | tools/ext4dump.c:524-636 | over any run without a stale eviction or a failure, reads show a flat array with every write in issue order |
| DriveCache.CarefulReadsAreFlat | tools/ext4dump.c:524-636 | for every draw: when each write fits and is disjoint from those since the last honoured barrier, no write fails and reads show that flat array |
| DriveCache.LyingDriveIsNotSafe | tools/ext4dump.c:615-636 | barriers ignored: after a cut, data that a flush had answered for is gone |
| DriveCache.FileCtx.CacheCommit | tools/ext4dump.c:309-332 | the code commits the queue in order and stops at the first failure |
| DriveCache.FileCtx.CacheEvict | tools/ext4dump.c:340-392 | the marking, the writes and the in-place compaction compute the eviction for some legal choice |
| DriveCache.FileCtx.CacheCrash | tools/ext4dump.c:397-431 | the shuffle is a permutation and a prefix of it reaches the medium |
| DriveCache.FileCtx.CacheOverlay | tools/ext4dump.c:434-448 | the buffer becomes the medium with the pending writes applied in issue order |
| DriveCache.FileCtx.FileRead | tools/ext4dump.c:524-552 | success returns exactly what the drive shows |
| DriveCache.FileCtx.FileWrite | tools/ext4dump.c:554-613 | the whole new state, for some legal choice of eviction and order |
| DriveCache.FileCtx.FileFlush | tools/ext4dump.c:615-636 | the whole new state of a barrier |
| Crc.Crc32cModulus | tools/fuzz/ext4_csum.h:35-37 | the reflected constant is the polynomial of section 12.1 of RFC 3720 |
| Crc.Crc16Modulus | tools/fuzz/ext4_csum.c:27-28 | the other constant is x^16+x^15+x^2+1 |
| Crc.StepIsMulX | tools/fuzz/ext4_csum.c:19-34 | one shift of the register is multiplication by x modulo the polynomial |
| Crc.CrcIsTheRemainder | tools/fuzz/ext4_csum.c:19-54 | the CRC is the one polynomial of lower degree congruent to seed times x^8n plus message times x^w, for every input |
| Crc.CrcConcat | tools/fuzz/ext4_csum.c:38-54 | feeding two pieces in turn is feeding their concatenation |
| Crc.CrcIsLinear | tools/fuzz/ext4_csum.c:38-54 | the CRC of an XOR, of seeds and of data, is the XOR of the CRCs |
| Crc.OneByteShows | tools/fuzz/ext4_csum.c:38-45 | CRC32C differs for any two messages that differ in one byte, at any length |
| CrcBurst.SparseShows | tools/fuzz/ext4_csum.c:38-45 | a CRC32C from zero vanishes on no message but zeros among those with all else outside two pairs of bytes 32 apart, wherever it starts and ends |
| CrcBurst.TwoBytesMayHide | tools/fuzz/ext4_csum.c:38-45 | the low half of the register alone loses exactly one change of the last two bytes |
| Crc.LookUpIsFeed | tools/fuzz/ext4_csum.c:38-54 | one table look-up does eight bit steps |
| Crc.BuildTable | tools/fuzz/ext4_csum.c:19-36 | every entry is eight bit steps of its index |
| Crc.Update | tools/fuzz/ext4_csum.c:38-54 | the table-driven loop equals bit-by-bit division for every seed and input |
| Ext4Csum.ParsedIsSane | tools/fuzz/ext4_csum.c:111-171 | a layout that parses has block and inode sizes, descriptor size 32 to 64 and a group count in range |
| Ext4Format.ParsesIff | tools/fuzz/ext4_csum.c:111-171 | an image parses exactly when its superblock, byte by byte, makes sense, and its groups are then as many as cover its blocks, 64-bit wrap included |
| Ext4Format.NumbersAreRead | tools/fuzz/ext4_csum.c:111-171 | every number of the layout is the little-endian field at its offset |
| Ext4Format.FeaturesAreRead | tools/fuzz/ext4_csum.c:111-171 | every feature flag is its bit, and decides the high halves, the descriptor size and the seed |
| Ext4Csum.DescriptorsDoNotOverlap | tools/fuzz/ext4_csum.c:173-181 | descriptor addresses never wrap and no two descriptors share a byte |
| Ext4Format.DescriptorIsThere | tools/fuzz/ext4_csum.c:173-181 | a descriptor is found exactly for a group that exists and in an image that holds it |
| Ext4Format.InodeIsThere | tools/fuzz/ext4_csum.c:204-219 | an inode is found at its index in the table that the bytes of its group's descriptor name at 0x08, with 64 bytes also at 0x28 |
| Ext4Csum.InodesDoNotOverlap | tools/fuzz/ext4_csum.c:204-219 | within a group no two inodes share a byte, also where the 64-bit sum wraps |
| Ext4Csum.DescCsumIsOneCrc | tools/fuzz/ext4_csum.c:257-285 | a descriptor's checksum is one CRC over group number and descriptor, its own field zeroed or, in the older scheme, left out |
| Ext4Csum.InodeCsumIsOneCrc | tools/fuzz/ext4_csum.c:315-342 | an inode's is one CRC over number, generation and the inode with the fields it has zeroed |
| Ext4Format.InodeIsChecked | tools/fuzz/ext4_csum.c:315-369 | check and stamp over the bytes: stored at 0x7C, and at 0x82 when the extra size at 0x80 is 4 or more, and nothing else written |
| Ext4Format.BlockBitmap | tools/fuzz/ext4_csum.c:387-446 | over the bits of the image: nothing is checked or stamped when flag 2 of the group is set or the bitmap is out of range; otherwise the bytes covered start at the block named at 0x00, a bit for each block, and the checksum is at 0x18, from 58-byte descriptors on also at 0x38 |
| Ext4Format.InodeBitmap | tools/fuzz/ext4_csum.c:387-446 | the same for flag 1, the block at 0x04, a bit for each inode, the checksum at 0x1A, from 60 bytes on also at 0x3A |
| Ext4Format.DescriptorIsChecked | tools/fuzz/ext4_csum.c:287-303 | a descriptor's checksum is the two bytes at 0x1E |
| Ext4Format.SuperblockIsChecked | tools/fuzz/ext4_csum.c:238-255 | the superblock's is its last four bytes and covers all the others |
| Ext4Csum.StampSbAgrees | tools/fuzz/ext4_csum.c:238-255 | after stamping the superblock its check agrees, restamping changes nothing, only the field changed |
| Ext4Csum.StampDescAgrees | tools/fuzz/ext4_csum.c:257-303 | the same for a descriptor, both schemes, without any assumption on what it points at |
| Ext4Csum.StampInodeAgrees | tools/fuzz/ext4_csum.c:315-369 | the same for an inode, unless its field lies on the address of its own inode table and changes it |
| Ext4Csum.StampedInodeStaysIff | tools/fuzz/ext4_csum.c:204-219 | with descriptors shorter than 64 bytes: the check looks where the stamp was put exactly when the bytes of that address on the field were the checksum's already |
| Ext4Csum.StampedAndLost | tools/fuzz/ext4_csum.c:315-369 | an image that parses, on which a stamped inode is not found by its check |
| Ext4Csum.StampBitmapAgrees | tools/fuzz/ext4_csum.c:387-451 | the same for either bitmap, unless the bitmap lies on its own field |
| Ext4Csum.BitmapAgreesByRegister | tools/fuzz/ext4_csum.c:387-446 | for every overlap of a bitmap with its own field: stamp and check agree exactly when the CRC, from zero, of what the stamp changes of the bitmap vanishes in the stored half or halves |
| Ext4Csum.AliasedBitmapAgreesIff | tools/fuzz/ext4_csum.c:387-446 | with both halves stored, and with one when the bitmap ends by the field's first byte: exactly when every byte of the bitmap on the field was the checksum's already |
| Ext4Csum.AliasedLowHalfAgreesIff | tools/fuzz/ext4_csum.c:387-446 | with the low half alone, the bitmap ending with it: exactly then, or when the two bytes were off by 4D 90 |
| Ext4Csum.StampedAndWrong | tools/fuzz/ext4_csum.c:387-446 | an image that parses, on which a stamped bitmap does not check |
| Ext4Csum.StampedAndRightByChance | tools/fuzz/ext4_csum.c:387-446 | one on which it checks although the bytes were not the checksum's |
| Ext4Csum.BitmapDamageShows | tools/fuzz/ext4_csum.c:387-446 | with both halves stored, changing any one byte of a bitmap that checked makes its check disagree |
| Ext4Csum.StampGroupAgrees | tools/fuzz/ext4_mutator.c:316-322 | block bitmap, inode bitmap, descriptor, superblock in this order: every check that applies agrees at the end, for every descriptor size, when no bitmap lies on one of the four fields and the descriptor not on the superblock's |
| Ext4Csum.StampGroupFrame | tools/fuzz/ext4_mutator.c:316-322 | and only the four checksum fields change, whatever overlaps |
| Ext4Stamper.Stamper.LayoutParse | tools/fuzz/ext4_csum.c:111-171 | the code reads the layout that the specification gives, refusals included |
| Ext4Stamper.Stamper.StampSuperblock | tools/fuzz/ext4_csum.c:238-245 | the image becomes the stamped one, or stays |
| Ext4Stamper.Stamper.CheckSuperblock | tools/fuzz/ext4_csum.c:247-255 | stored and wanted are the specification's |
| Ext4Stamper.Stamper.StampDescriptor | tools/fuzz/ext4_csum.c:287-294 | the image becomes the stamped one, or stays |
| Ext4Stamper.Stamper.CheckDescriptor | tools/fuzz/ext4_csum.c:296-303 | stored and wanted are the specification's |
| Ext4Stamper.Stamper.StampInodeChecksum | tools/fuzz/ext4_csum.c:344-353 | the image becomes the stamped one, or stays |
| Ext4Stamper.Stamper.CheckInodeChecksum | tools/fuzz/ext4_csum.c:355-369 | stored and wanted are the specification's, the checksum taken over a copy zeroed in place |
| Ext4Stamper.Stamper.StampBitmapChecksum | tools/fuzz/ext4_csum.c:413-424 | the image becomes the stamped one, or stays |
| Ext4Stamper.Stamper.CheckBitmapChecksum | tools/fuzz/ext4_csum.c:429-446 | stored and wanted are the specification's |
| Ext4Stamper.Stamper.RestampGroup | tools/fuzz/ext4_mutator.c:316-322 | the four stamps in order over one shared image |
| Lifecycle.ExactlyOneOwner | Extension/Ext4Volume.swift:122-176 | in every interleaving, with any failures: an inode is allocated without a name exactly when it waits in `pendingRelease`, is held by a call or was left to the orphan list; never two of these; and no file is freed twice |
| Lifecycle.EveryRunKeeps | Extension/Ext4Volume.swift:122-176 | the invariant behind it, kept by every step of every run |
| Lifecycle.MovingKeepsOwners | Extension/Ext4Volume.swift:131-176 | a call that moves each inode's one owner to one owner keeps every inode owned once |
| Lifecycle.UnmountLeavesNothing | Extension/Ext4Volume+Operations.swift:131-155 | an unmount that has the volume to itself ends with the set empty, and the inodes without a name are exactly those on the orphan list: none beyond what was there when every release succeeds |
| Lifecycle.UnmountFinishes | Extension/Ext4Volume.swift:155-176 | and it can reach that end from every state with no call in flight |
| Lifecycle.LastCloseFrees | Extension/Ext4Volume+OpenClose.swift:35-53 | the executor free, whatever else is in flight: the last close of a file that waits for it frees that file and nothing else, in two steps; if the release fails it waits on |
| Lifecycle.ReleaseFrees | Extension/Ext4Volume+Deactivation.swift:25-37 | deactivating and reclaiming do the same, however often it is open |
| Lifecycle.CloseLeavesOpen | Extension/Ext4Volume+OpenClose.swift:38-52 | a close that leaves opens behind starts nothing, and a close undoes an open |
| Lifecycle.NothingToRelease | Extension/Ext4Volume.swift:133-152 | a close or release of a file that does not wait changes nothing but the count |
| Lifecycle.RemoveFreesOrWaits | Extension/Ext4Volume+Operations.swift:486-510 | removing the one name of a file frees it when nobody has it open, and makes it wait when somebody has |
| Lifecycle.RemoveTakesOneName | Extension/Ext4Volume+Operations.swift:486-510 | removing one name of several takes that name only; a failed removal changes nothing |
| Lifecycle.RenamedAway | Core/shim/ext4_bridge.c:3768-3825 | a name made and then renamed over is gone again, and the file with it if it was the only one |
| Lifecycle.EveryCallEnds | Extension/Ext4Volume.swift:131-176 | the executor free, each step of any call brings it nearer to its end |
| Lifecycle.NothingAfterClosing | Extension/Ext4Volume+Operations.swift:131-155 | once the volume is closed no run changes the medium |
| Lifecycle.FreedWhileOpenIff | Extension/Ext4Volume.swift:122-176 | from every state a run can reach: the calls in flight can free an open file exactly when one is about to release it, or is about to unlink its one name having found it closed, or is about to look at the set where it is or will come to be |
| Lifecycle.RenamedWhileOpenIff | Core/shim/ext4_bridge.c:3768-3825 | with renames over the file among them: exactly then, or when it has a name and the volume is live |
| Lifecycle.FreeingStep | Extension/Ext4Volume+Operations.swift:463-560 | the steps that free an open file, exactly: such an unlink, a release, or a rename over its one name |
| Lifecycle.SafeIsNotDoomed | Extension/Ext4Volume.swift:122-176 | with no such call in flight over an open file, none is in danger |
| Lifecycle.NeverFreedWhileOpen | Extension/Ext4Volume+Operations.swift:463-560 | as long as the framework keeps to what is listed, no interleaving frees an open file |
| Lifecycle.RenameOverOpen | Core/shim/ext4_bridge.c:3812-3820 | a rename over the one name of an open file frees it |
| Lifecycle.OpenDuringRemove | Extension/Ext4Volume+Operations.swift:486-504 | an open between the look at the count and the unlink frees an open file |
| Lifecycle.ReopenDuringClose | Extension/Ext4Volume+OpenClose.swift:35-53 | so does reopening and removing between the two critical sections of a close |
| Lifecycle.Volume.OpenItem | Extension/Ext4Volume+OpenClose.swift:30-33 | one more open of this inode, nothing else |
| Lifecycle.Volume.CountClose | Extension/Ext4Volume+OpenClose.swift:38-46 | one open less, the entry removed at zero, the remainder returned even when negative |
| Lifecycle.Volume.TakePending | Extension/Ext4Volume.swift:135 | taken out of the set, and whether it was there |
| Lifecycle.Volume.TakeAllPending | Extension/Ext4Volume.swift:156-160 | the whole set, which is then empty |
| CloseVolume.EveryRunIsOrderly | Extension/Ext4FileSystem.swift:92-507 | in every interleaving of probes, loads, reloads, checks, unmount, deactivate, unload and format, at every point: one device at a time is mounted; each handle is mounted, unmounted and destroyed at most once; what was mounted has been unmounted by `closeVolume` before its device is destroyed, and that before the cipher under it |
| CloseVolume.UnmountedFirst | Extension/Ext4FileSystem.swift:465-490 | the same as positions in the log of events |
| CloseVolume.EveryRunKeeps | Extension/Ext4FileSystem.swift:92-507 | the invariant behind it: one owner for each bridge, and the core's slot holds the device that is mounted |
| CloseVolume.NothingPublished | Core/shim/ext4_bridge.c:1378-1397 | a load that has mounted finds nothing published |
| CloseVolume.NeverOverwrites | Extension/Ext4FileSystem.swift:421-424 | so in no run, however many loads are in flight, is a bridge published over another |
| CloseVolume.LoadClosesMountIff | Extension/Ext4FileSystem.swift:262-276 | nothing else in flight: a load can unmount what is mounted, whatever device that is, exactly when the device last seen has the name of the one being loaded; otherwise the mount stays, however the load turns out |
| CloseVolume.ReloadMounts | Extension/Ext4FileSystem.swift:262-424 | a reload that succeeds: the old device is unmounted, then destroyed, then its cipher layer, and only then is a new bridge made of the resource, mounted and published |
| CloseVolume.LoadMounts | Extension/Ext4FileSystem.swift:281-424 | a load with nothing published that succeeds: the same without the teardown, through the cipher layer if there is one |
| CloseVolume.CloseTakesDown | Extension/Ext4FileSystem.swift:451-500 | unmount, deactivate, unload and format: what is published is taken, unmounted and destroyed |
| CloseVolume.ReloadOfNothing | Extension/Ext4FileSystem.swift:263-281 | a reload that finds the mount taken by another call loads all the same |
| CloseVolume.CheckLeavesNothing | Extension/Ext4FileSystem+Maintenance.swift:151-245 | a check that replays the journal of a device that is not mounted: it is opened, mounted, unmounted and destroyed, and nothing else is left changed |
| CloseVolume.DeclinedIsForgotten | Extension/Ext4FileSystem.swift:92-115 | a declined device is forgotten unless another has been seen since, in any interleaving with that other probe |
| CloseVolume.NothingLeaks | Extension/BlockDeviceBridge.swift:137-148 | at every point of every run, a device not destroyed is held by a bridge, and when no call and no publication refers to that bridge, letting it go destroys device and cipher layer |
| CloseVolume.NoLayerIsLost | Extension/BlockDeviceBridge.swift:161-205 | nor is a cipher layer opened in vain left behind |
| CloseVolume.EveryCallEnds | Extension/Ext4FileSystem.swift:92-507 | each step of any call brings it nearer to its end, however it turns out and whatever else runs |
| CloseVolume.LoadOfAnotherCloses | Extension/Ext4FileSystem.swift:262-267 | one device mounted, another probed and recognised, then loaded: the first is unmounted |
| CloseVolume.BlockDeviceBridge.Close | Extension/BlockDeviceBridge.swift:137-148 | device, unmounted first if it still is mounted, then cipher layer, each once; closing again does nothing |
| CloseVolume.BlockDeviceBridge.OpenThroughLuks | Extension/BlockDeviceBridge.swift:161-205 | only over a bridge that is closed; both handles, or none and the cipher layer destroyed if it had been opened |
| CloseVolume.MountState.Look | Extension/Ext4FileSystem.swift:262 | a mount is found exactly when a bridge is published and a device remembered, and under that device's name |
| CloseVolume.MountState.Decline | Extension/Ext4FileSystem.swift:111-115 | a declined device is forgotten unless another has been seen since |
| CloseVolume.MountState.Take | Extension/Ext4FileSystem.swift:458-463 | the taker gets the bridge and leaves none |

## Left out

- The LUKS2 key-slot path (`try_luks2_slot`, `derive_slot_key`, `luks2_digest_ok`): its header and JSON reader are modelled, its key derivation repeats the LUKS1 slot with Argon2, whose core is not part of this model.
- The LUKS IV counter and byte offsets do not wrap at 64 bits; a container of that size does not exist.
- Allocation failures of the LUKS and JSON layers, except where an error return has to leave state unchanged; memory locking and page rounding of key buffers.
- Ext4Check.CheckTree: a directory with 2^32 subdirectories would wrap the counter the code compares; the model counts without bound. The text of the first problem is not modelled.
- DriveCache.FileCtx.FileWrite: a write past the end of an image in a regular file would extend it; the model's medium keeps its size and answers EIO. Error injection, timing and tracing are left out, and so is the termination of the loop that draws random victims.
- JsonPrint.ParseUndoesPrint: a string is printed as it stands in the document, escapes in place, since the parser does not decode them; documents above 2 GiB, whose offsets the code narrows to `int`, are not modelled.
- The stamps of extent, directory and extended-attribute blocks: one field at a fixed place each, with no matching check to agree with. `fz_stamp_dx_block`: its order of count and limit disagrees with the mutator's.
- Ext4Csum.AliasedBitmapAgreesIff: with the low half alone and a bitmap that runs past it, or that starts on its second byte, only the condition on the register is stated (BitmapAgreesByRegister); which changes it loses depends on how far the bitmap runs.
- Ext4Csum.StampInodeAgrees: when the stamp does change the table's address, the check looks at another inode or at none (StampedAndLost), and whether it agrees with another is not stated; with 64-byte descriptors a change may also wrap to the same place.
- CloseVolume.EveryRunIsOrderly: the bridges that a probe and a format open for themselves and close before they answer are not among the bridges; they mount nothing and never reach the mount state.
- DriveCache.CarefulReadsAreFlat: for drives with a cache and with the power on; without a cache nothing is drawn (WriteKeeps), and after the cut nothing is promised.
- Ext4Csum.StampGroupAgrees: the mutator leaves out the superblock's stamp at random; here it is always made.
- Preallocation trims, the cache of live items and volume statistics: independent of the release protocol.
- LuksUnlock.Request.UnlockUndoesFormat: an earlier slot may by chance yield another key with the same digest; the master key is claimed when none does.
- lwext4, the bridge's implementation, the user interface, logging, key storage and the fuzz harness.
