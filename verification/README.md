# Verified models of the liuqin boot, storage and fingerprint tools

This project models the parts of the repository whose mistakes would cost a tablet
its partition table, its stock system or its fingerprint identity, and proves what
they promise. Every environment that can fail does so freely in the model: a device
may refuse any read, write or flush; a power loss keeps any mix of the bytes written
since the last flush; a TA answers with any status; a process may be killed at any
point; a mount, umount or blockdev call may fail.

| files | what they model |
|---|---|
| `Bytes.dfy` | byte strings, little- and big-endian fields, wrapping 64-bit addition, Python's clipping slices |
| `Crc32.dfy`, `CrcDivision.dfy` | the bitwise CRC, what it detects, and which checksum it is |
| `Gpt.dfy`, `GptUpdate.dfy`, `GptLayout.dfy` | the A/B slot marker: strict reading of a GPT copy, the crash-safe rewrite of both copies, and the accepted disks and the change byte by byte |
| `Cpio.dfy`, `CpioArchive.dfy`, `CpioLayout.dfy`, `Utf8.dfy` | the newc archive reader and writer, on values and as the mutable object, the bytes of its records, and the texts of its names |
| `Ramdisk.dfy`, `BootImage.dfy`, `BootLayout.dfy`, `Patch.dfy` | the lz4-legacy container, the boot image container with its AVB footer, its bytes, and the whole patch |
| `Storage.dfy` | stage 1's storage gate, from the first read-only lock to `switch_root`, the shell or stage 2 |
| `Authorization.dfy` | the challenge and token exchange between two processes over two pipes |
| `Enrolment.dfy`, `Database.dfy`, `EnrolProgress.dfy` | the order of TA commands in an enrolment, the chunked template database transfer, and the driver that reads the provider's output |
| `Identity.dfy`, `HandleReplace.dfy` | at-most-once creation of a machine credential, and the crash-safe replacement of its handle |
| `Layout.dfy`, `LayoutCall.dfy` | the partition planner, the one `sgdisk` call that carries its plan out, and both in numbers and names |
| `PowerKey.dfy` | the power key's press classifier |

Code that updates state step by step (`Device`, `GptCopy`, `Archive`, `Gate`, `Client`,
`Ta`, `Account`, `PowerFsm`, `Device` of the enrolment driver, and the loops of the
parsers, printers and planners) is modelled as classes and methods, each proved
against a specification function or predicate; the lemmas then say what that
specification is worth. Concurrent processes are state machines over their steps.

What a run meets is a parameter where the source only reacts to it: every answer, exit
status and cancellation of a boot, an enrolment, a transfer or a handle replacement is a
field of a `...Replies` or `Fate` value, so the contracts say for all of them both what
never happens and exactly when the run succeeds. Formats are stated twice: by the
functions that read and write them, and byte by byte in the `...Layout.dfy` files, which
share no layout function with those.

Where the code falls short of what one would like to say, the exact condition is
proved, with an input that shows the failure where the failure is not plain:

- The primary header's bound `last_usable + 4 < disk_lbas` is computed in wrapping
  64-bit arithmetic and admits absurd values (`Gpt.WrappedPrimary`). It means what it
  says exactly when the sum does not wrap (`Gpt.PrimaryBoundIffNoWrap`); together
  with the backup header the geometry is sound regardless (`Gpt.GeometrySound`).
- `Cpio.dump` records a name's length in characters but writes its UTF-8 bytes: an
  archive survives writing and reading exactly when its names are ASCII and none is
  `.`, `..` or the trailer's (`Cpio.RoundTripIff`).
- A footerless boot image whose new ramdisk ends in bytes that look like an AVB footer
  can be parsed again exactly when that footer holds: its offset leads to an `AVB0` and
  its original size is no less than the payload's end (`BootImage.PutGet`). One that
  does not hold makes the parser refuse the tool's own output
  (`BootImage.FooterlessCanFail`); one that holds is relocated by the next write
  (`BootImage.FooterCanBeForged`).
- An image whose vbmeta block is cut off by its end can be rewritten, but a second
  write may differ from the first: the block is read back up to its declared size, with
  whatever follows it. Writing twice is writing once exactly when the block has its
  declared room (`BootImage.PutPut`, `BootImage.RebuildIdempotent`;
  `BootImage.ClippedCanFail`). The tool's round-trip gate admits no such image
  (`BootImage.GateIsStable`).
- `patch` reads `entries['init.real']` unconditionally, so it stops on a ramdisk with
  neither `init` nor `init.real` (`Patch.NoInitRefused`); `Patch.PatchExact` has the
  exact condition of success.
- The planner always uses partition numbers 36 and 37, while the device check only
  counts free entries: the `sgdisk` call succeeds exactly when those two numbers can
  be used (`Layout.Realised`), and a table the device check accepts on which they
  cannot is `Layout.BusyNumberRefused`.
- `storage_lock_all` verifies the nodes its last loop sees, which need not be the nodes
  it listed: `Storage.FlickerRun` is a boot that opens the shell and goes on to stage 2
  with the one listed node never asked. On success every listed node is verified
  exactly when the last loop went over all of them (`Storage.Gate.LockAll`), so
  wherever a shell or stage 2 is reached in such a steady namespace every listed node
  was just verified read-only (`Storage.Gate.Boot`). Once a persistent boot has taken
  its snapshot, an abort that succeeds has verified every node of it
  (`Storage.Gate.Abort`), until a further lock looks anew.
- A handle candidate is deleted by `--change-input` although it is not empty exactly
  when its `fstat` fails or it is larger than 1024 bytes
  (`HandleReplace.Account.ChangeInput`, `HandleReplace.UnmeasuredIsDeleted`,
  `HandleReplace.OversizeIsDeleted`). The repository's own runtime never writes more
  than 1024 bytes (`device/fingerprint/oem/src/fingerprint/oem/qsee_gatekeeper.c:372`),
  so the second needs another one.

## Model

| member | source | states |
|---|---|---|
| Bytes.LittleEight | device/boot/liuqin-mark-slot-successful.c:49-63 | a 64-bit field is the number whose base-256 digits are its bytes, least significant first |
| Bytes.BigEight | tools/patch-android-boot-ksu.py:277 | a big-endian one has them most significant first |
| Crc32.Crc32Bytes | device/boot/liuqin-mark-slot-successful.c:71-83 | the bit-by-bit loop over a buffer computes the CRC function of its first bytes |
| CrcDivision.CrcIsRemainder | device/boot/liuqin-mark-slot-successful.c:71-83 | for every byte string that CRC is the complemented remainder of dividing the string's polynomial, its first 32 coefficients complemented and 32 zeros behind it, by x^32+x^26+x^23+x^22+x^16+x^12+x^11+x^10+x^8+x^7+x^5+x^4+x^2+x+1 |
| CrcDivision.CheckValue | device/boot/liuqin-mark-slot-successful.c:71-83 | the CRC of the digits 1 to 9 is cbf43926 |
| Crc32.BitStepInjective | device/boot/liuqin-mark-slot-successful.c:79-80 | one bit step never merges two registers |
| Crc32.BurstDetected | device/boot/liuqin-mark-slot-successful.c:71-83 | two byte strings that differ only within four consecutive bytes have different CRCs |
| Gpt.GeometrySound | device/boot/liuqin-mark-slot-successful.c:344-351 | for two accepted copies with equal usable ranges: primary header, primary array, usable area with both pinned boot ranges, backup array and backup header follow each other without overlap inside the disk |
| Gpt.PrimaryBoundIffNoWrap | device/boot/liuqin-mark-slot-successful.c:148-156 | the primary's upper bound holds exactly when its 64-bit sum does not wrap |
| Gpt.WrappedPrimary | device/boot/liuqin-mark-slot-successful.c:148-156 | a disk of the one size the tool takes, 2923429888 bytes, whose primary header is accepted although its usable area claims the whole 64-bit range |
| Gpt.BootUnique | device/boot/liuqin-mark-slot-successful.c:185-201 | the entry found for a slot is determined by the array |
| Gpt.SlotsDiffer | device/boot/liuqin-mark-slot-successful.c:185-201 | the two slots never resolve to one entry |
| Gpt.MarkedBits | device/boot/liuqin-mark-slot-successful.c:371-372 | marking sets bit 54, clears bit 55 and keeps every other attribute bit |
| Gpt.MarkEntryKeeps | device/boot/liuqin-mark-slot-successful.c:373-374 | marking changes eight bytes of one entry and the same entry is found again |
| GptLayout.MarkedByte | device/boot/liuqin-mark-slot-successful.c:371-374 | marking changes one byte of the array, byte 54 of the entry: its bit 6 is set, its bit 7 cleared, its other bits kept |
| GptLayout.LoaderByte | device/boot/liuqin-mark-slot-successful.c:360-368 | the loader's choice in that byte: both priority bits, the active bit, and a try left or the successful bit |
| GptLayout.AcceptedIs | device/boot/liuqin-mark-slot-successful.c:135-201 | the disks the tool goes on with are exactly those with these bytes at these offsets from the start of the disk |
| Gpt.RefreshPassesCrcs | device/boot/liuqin-mark-slot-successful.c:203-208 | after the nested CRCs are refreshed both CRC checks pass and no other header byte has changed |
| Gpt.RefreshAccepted | device/boot/liuqin-mark-slot-successful.c:203-208 | a copy whose fields were accepted is accepted strictly after its CRCs are refreshed |
| Gpt.HeaderCorruptionRefused | device/boot/liuqin-mark-slot-successful.c:159-163 | a change within four consecutive covered header bytes makes the reader refuse |
| Gpt.HeaderByteRefused | device/boot/liuqin-mark-slot-successful.c:159-163 | so does a change of any one of the 92 header bytes |
| Gpt.EntryCorruptionRefused | device/boot/liuqin-mark-slot-successful.c:174-179 | a change within four consecutive bytes of the entry array makes the strict reader refuse |
| GptUpdate.Device.ReadFully | device/boot/liuqin-mark-slot-successful.c:85-95 | the read loop, over reads that may each return less than was asked for, returns exactly the bytes asked for, or fails for a reason of the device's |
| GptUpdate.Device.WriteFully | device/boot/liuqin-mark-slot-successful.c:97-107 | the write loop stores the whole buffer, and every image in between differs from the start only inside the region written |
| GptUpdate.GptCopy.LoadFrom | device/boot/liuqin-mark-slot-successful.c:135-181 | reading a copy into its buffers agrees with the reading function in every branch |
| GptUpdate.GptCopy.FindBoot | device/boot/liuqin-mark-slot-successful.c:185-201 | the scan returns the slot's entry exactly when there is one with the pinned range |
| GptUpdate.GptCopy.RefreshCrcs | device/boot/liuqin-mark-slot-successful.c:203-208 | the three stores give the refreshed header |
| GptUpdate.BackupPhaseSurvives | device/boot/liuqin-mark-slot-successful.c:392-394 | any mix of old and new bytes while the backup is written leaves the primary exactly as it was |
| GptUpdate.PrimaryPhaseSurvives | device/boot/liuqin-mark-slot-successful.c:395-397 | any mix of bytes while the primary is written leaves a strict backup with the marked entries |
| GptUpdate.FinishedIsRight | device/boot/liuqin-mark-slot-successful.c:392-397 | after the four writes both copies load strictly with the same marked entries and nothing else on the disk has changed |
| GptUpdate.MarkSlot | device/boot/liuqin-mark-slot-successful.c:272-427 | from the guards to the exit status: every crash point leaves an accepted copy; a check, a refused disk, another running slot or a mounted device writes nothing; status 0 means the finished disk, flushed and read-only again; any other status has a cause |
| Cpio.HexRoundTrip | tools/patch-android-boot-ksu.py:195-197 | eight hexadecimal digits written are the number read back |
| Cpio.CharsIffAscii | tools/patch-android-boot-ksu.py:196-197 | a valid UTF-8 name has as many characters as bytes exactly when it is ASCII |
| Cpio.RecordStep | tools/patch-android-boot-ksu.py:165-187 | reading one written record consumes exactly it and stores its entry |
| Cpio.RecordRefused | tools/patch-android-boot-ksu.py:172-174 | reading a written record with a non-ASCII name fails on its terminator |
| Cpio.TrailerStep | tools/patch-android-boot-ksu.py:179-184 | the trailer ends the archive or leads to the next one after zeros |
| Cpio.RoundTrip | tools/patch-android-boot-ksu.py:161-216 | load after dump is the identity on every map of ASCII names whose fields fit |
| Cpio.RoundTripIff | tools/patch-android-boot-ksu.py:161-216 | and on no other map of NUL-free names |
| Cpio.ConcatenationOverrides | tools/patch-android-boot-ksu.py:179-185 | two archives with zeros between them load as the first overridden by the second |
| Cpio.LoadedKept | tools/patch-android-boot-ksu.py:162-188 | whatever the reader returns can be written again |
| Cpio.Normalises | tools/patch-android-boot-ksu.py:161-216 | rewriting any readable archive with ASCII names keeps its entries |
| CpioLayout.RecordLayout | tools/patch-android-boot-ksu.py:193-207 | a written record byte by byte: which eight digits are inode, mode, uid, gid, one link, size, device numbers and name length, then name, NUL and padding, data and padding |
| CpioLayout.RecordRead | tools/patch-android-boot-ksu.py:165-187 | any record whose header spells these numbers, in digits of either case, is read as the entry with that mode, uid, gid, device numbers and data |
| CpioLayout.FieldSpells | tools/patch-android-boot-ksu.py:170-171 | a field reads as a number exactly if its eight bytes are the number's hexadecimal digits |
| CpioLayout.DumpLayout | tools/patch-android-boot-ksu.py:199-208 | every entry has its record in the archive, numbered from 300000 in byte order of the names |
| CpioLayout.DumpTrailer | tools/patch-android-boot-ksu.py:209-212 | the archive ends in the record of `TRAILER!!!` |
| Utf8.EncodedIsValid | tools/patch-android-boot-ksu.py:175 | the UTF-8 bytes of every text are decodable and are counted as its code points |
| Utf8.ValidIsEncoded | tools/patch-android-boot-ksu.py:175 | and only such bytes are decodable |
| CpioArchive.NormPathIdempotent | tools/patch-android-boot-ksu.py:145-146 | a normalised path is its own normal form |
| CpioArchive.Archive.LoadBytes | tools/patch-android-boot-ksu.py:161-188 | the offset loop agrees with the reading function, errors included |
| CpioArchive.Archive.DumpBytes | tools/patch-android-boot-ksu.py:190-216 | the growing buffer ends as the dump of the entries in byte order of their names |
| CpioArchive.Archive.Move | tools/patch-android-boot-ksu.py:224-225 | moving fails without the source and otherwise renames it, over whatever had the target's name |
| Ramdisk.StoringIsLossless | tools/patch-android-boot-ksu.py:89-122 | what is assumed of the codecs can be met |
| Ramdisk.CompressionRoundTrip | tools/patch-android-boot-ksu.py:80-122 | for lossless codecs the format is recognised and the data comes back, except that an empty lz4 ramdisk is refused |
| Ramdisk.FormatIs | tools/patch-android-boot-ksu.py:80-86 | the two formats are told apart by the word 184c2102 and two gzip byte pairs |
| Ramdisk.CompressedFramed | tools/patch-android-boot-ksu.py:117-122 | an lz4-legacy ramdisk is that word and, for every 8388608 bytes and the rest, a little-endian length and a packed block |
| Ramdisk.DecompressLz4 | tools/patch-android-boot-ksu.py:93-106 | the block loop, stopping at a zero or overlong length, is the decoding function |
| Ramdisk.CompressLz4 | tools/patch-android-boot-ksu.py:117-122 | the block loop is the framing function |
| BootImage.ParsedIsFormed | tools/patch-android-boot-ksu.py:243-284 | what the parser returns has consistent blocks and sizes |
| BootImage.RebuildShape | tools/patch-android-boot-ksu.py:286-316 | rebuilding succeeds exactly when everything fits, keeps the length, and lays the blocks out page by page with the footer last |
| BootLayout.WrittenBlocks | tools/patch-android-boot-ksu.py:286-301 | where a written image keeps magic, version, sizes, kernel, ramdisk and signature, with zeros up to each page boundary |
| BootLayout.WrittenPage | tools/patch-android-boot-ksu.py:286-301 | nothing else in its first page differs from the stock image |
| BootLayout.WrittenAvb | tools/patch-android-boot-ksu.py:302-316 | behind the blocks come zeros, or the tail, the vbmeta block on a page boundary, zeros, and the footer with two big-endian numbers changed to that boundary |
| BootLayout.ParsedBlocks | tools/patch-android-boot-ksu.py:243-266 | where the parser takes version, sizes and blocks from |
| BootLayout.ParsedAvb | tools/patch-android-boot-ksu.py:272-284 | and footer, vbmeta block and tail, with the big-endian numbers at 12, 20 and 28 of the footer |
| BootImage.PutGet | tools/patch-android-boot-ksu.py:243-316 | the ramdisk written is the ramdisk read back, with kernel and signature; parsing succeeds exactly when nothing looks like a footer or what does holds as one; the vbmeta block comes back exactly when it was not cut off |
| BootImage.PutPut | tools/patch-android-boot-ksu.py:243-316 | writing one ramdisk, parsing and writing another equals writing the other at once, byte for byte, exactly when both writes leave the vbmeta block its declared room, or a footerless image did not come to look footed |
| BootImage.PutPutRefused | tools/patch-android-boot-ksu.py:286-316 | and what cannot be written at once cannot be written through the first image either |
| BootImage.RebuildIdempotent | tools/patch-android-boot-ksu.py:243-316 | parsing the written image and writing the same ramdisk again changes nothing, under exactly that condition |
| BootImage.GateIsStable | tools/patch-android-boot-ksu.py:372-379 | an image that passes the round-trip gate has its whole vbmeta block, or nothing that looks like a footer |
| BootImage.GatedPutPut | tools/patch-android-boot-ksu.py:372-379 | so a gated image can be rewritten again and again: a second ramdisk that fits lands as if written at once |
| BootImage.OnlyRamdiskSizeChanges | tools/patch-android-boot-ksu.py:414-429 | after the gate, a rewritten image keeps every header field but the ramdisk size, and its kernel, signature, command line and length |
| BootImage.FooterlessCanFail | tools/patch-android-boot-ksu.py:272-284 | a gated footerless image and a ramdisk whose result cannot be parsed |
| BootImage.FooterCanBeForged | tools/patch-android-boot-ksu.py:272-284 | a gated footerless image and a ramdisk that comes back with a footer, and that a second write does not reproduce |
| BootImage.ClippedCanFail | tools/patch-android-boot-ksu.py:243-316 | an image with a cut-off vbmeta block whose written form parses but is not reproduced by writing the same ramdisk again |
| BootImage.RebuildBytes | tools/patch-android-boot-ksu.py:286-316 | the growing buffer, with its absolute padding, is the rebuilding function |
| Patch.ChangedMeans | tools/patch-android-boot-ksu.py:397-406 | `init` moves to `init.real`, `init` and `kernelsu.ko` arrive with mode 81ed and owner 0, every other entry stays |
| Patch.PatchExact | tools/patch-android-boot-ksu.py:372-449 | on a gated, unpacked image the patch succeeds exactly when the result fits and its end can be read back, all names are ASCII and there is an `init` or `init.real`; the output reparses to the same kernel, signature, command line and fields, and its ramdisk to the changed entries |
| Patch.NoInitRefused | tools/patch-android-boot-ksu.py:397-406 | a stock image that passes the gate and every other condition of success, without `init` or `init.real`, on which the tool stops |
| Patch.ChangeArchive | tools/patch-android-boot-ksu.py:398-405 | the calls on the archive object make exactly those changes |
| Patch.PatchImage | tools/patch-android-boot-ksu.py:339-454 | the whole run succeeds exactly when the specification does and returns its image |
| Storage.ProperEverywhere | initramfs/init:1234-1280 | in a log of fair steps every single step was fair when it was taken |
| Storage.AnswerIsLatest | initramfs/init:690-718 | a read-only answer relied on is the latest about its node and newer than any flag change |
| Storage.ListedAnswerIsLatest | initramfs/init:737-766 | and, for the persistent check, newer than the latest listing of the nodes |
| Storage.MountedMeans | initramfs/init:768-783 | a place counts as mounted exactly when some mount of it was not undone since |
| Storage.Gate.LockAll | initramfs/init:690-718 | success exactly when the two listings agree, a node was there to set and every call of both loops did what it should; then every listed node is verified read-only since the last flag change exactly when the last loop went over all of them |
| Storage.Gate.SnapshotPersistentOk | initramfs/init:737-766 | success exactly when there is a snapshot, the listing equals it, and parent, target and home node answer writable and every other node read-only |
| Storage.Gate.Abort | initramfs/init:737-800 | status 0 exactly when the umounts, the lock and the look at the snapshot work; then nothing is mounted and, once there is a snapshot, every node of it was just verified read-only |
| Storage.Gate.Prepare | initramfs/init:802-917 | success exactly when no reply is a cause of refusal, with the exact log, only the new root mounted, both contract checks passed and the snapshot taken; after a refusal the safe flag is exactly whether the abort worked |
| Storage.Gate.Switch | initramfs/init:933-986 | the exec comes exactly when both checks and the three moves work, after a check of exactly the snapshot; any other end restores the locked state or withdraws the safe flag |
| Storage.Gate.Boot | initramfs/init:1034-1443 | whatever fails, every shell, stage 2 and `switch_root` of the run was fair when it happened, and each shell and stage 2 reached in a steady namespace had every listed node verified; which of them happen is exactly what the replies decide, and a persistent boot that nothing stops has exactly this log |
| Storage.HandsOverIff | initramfs/init:1234-1280 | a persistent boot hands over exactly when every command worked and every check found what it wanted |
| Storage.RescueTable | initramfs/init:768-800 | for every cause that stops one, which replies decide whether the shell and stage 2 are offered |
| Storage.HandoverTruthful | initramfs/init:835-917 | in the log of a handover every read-only answer is what the boot itself last set that node to, so a device that does as it is told hands over |
| Storage.HandoverRun | initramfs/init:1234-1280 | a boot of a tablet with three nodes that hands over |
| Storage.FairThroughout | initramfs/init:690-718 | in every log of fair steps, each shell and stage 2 reached while the last loop had gone over every listed node had every listed node verified read-only |
| Storage.FlickerRun | initramfs/init:690-718 | a boot whose changing namespace lets it open the shell and reach stage 2 with the one listed node never asked |
| Authorization.StepInv | device/fingerprint/oem/src/fingerprint/oem/fpc_build_info.c:379-455 | every step of either process keeps the invariant relating both programs and both pipes |
| Authorization.SubmitsFreshToken | device/fingerprint/oem/src/fingerprint/oem/fpc_build_info.c:427-445 | a token reaches the TA only if Gatekeeper signed it for the challenge fetched last |
| Authorization.NoByteOfNextMessage | device/fingerprint/oem/src/fingerprint/oem/qsee_gatekeeper.c:264-325 | under any fragmentation neither side holds a byte of another message |
| Authorization.SuccessMeansAllRounds | device/fingerprint/oem/src/fingerprint/oem/authorize_oem.py:88-94 | overall status 0 means every round was fetched, signed, submitted and accepted once |
| Authorization.StatusMeansRounds | device/fingerprint/oem/src/fingerprint/oem/authorize_oem.py:66-94 | exit status 0 of a mode means no cancellation and exactly that mode's rounds, each signed over its own challenge, submitted and accepted |
| Authorization.KindRunsSucceed | device/fingerprint/oem/src/fingerprint/oem/authorize_oem.py:66-94 | every run in which nothing fails and no token is refused ends, once it cannot go on, in exit status 0 |
| Authorization.ModeSucceeds | device/fingerprint/oem/src/fingerprint/oem/authorize_oem.py:66-94 | for all nonzero challenges, all tokens that carry them and all pipe capacities every mode has such a run, of one round for a plain preflight and two for the others |
| Authorization.TokenBytes | device/fingerprint/oem/src/fingerprint/oem/qsee_gatekeeper.c:264-325 | a token is 69 bytes: version 0, the challenge least significant byte first, 60 more |
| Authorization.NeverStuck | device/fingerprint/oem/src/fingerprint/oem/authorize_oem.py:84-93 | until both have exited some step other than a failure is possible |
| Authorization.RunsAreFinite | device/fingerprint/oem/src/fingerprint/oem/qsee_gatekeeper.c:566-587 | no interleaving runs longer than 200 steps a round |
| Identity.StepInv | device/fingerprint/oem/src/fingerprint/oem/native_enrol.py:168-229 | every step, death and power loss keeps the account's invariant |
| Identity.AtMostOnce | device/fingerprint/oem/src/fingerprint/oem/native_enrol.py:178-221 | Gatekeeper is asked at most once ever, and every enrolment used the secret it was asked with under the recorded binding |
| Identity.AskedOnlyWhenDurable | device/fingerprint/oem/src/fingerprint/oem/native_enrol.py:186-193 | at the time of asking the secret and the request mark survive any power loss and no handle exists |
| Identity.EnrolsOnlyComplete | device/fingerprint/oem/src/fingerprint/oem/native_enrol.py:194-229 | `--enrol` starts only with record, handle and binding complete, no request mark, and the secret Gatekeeper knows |
| Identity.SecretOutlives | device/fingerprint/oem/src/fingerprint/oem/native_enrol.py:62-71 | once asked, no later history loses the secret |
| Identity.UnfinishedIsFinal | device/fingerprint/oem/src/fingerprint/oem/native_enrol.py:179-180 | an unfinished request without living processes never leads to another creation or enrolment |
| Identity.Completes | device/fingerprint/oem/src/fingerprint/oem/native_credentials.py:101-136 | undisturbed, a first run creates and enrols and a later one enrols with the same secret |
| HandleReplace.CrashKeepsAHandle | device/fingerprint/oem/src/fingerprint/oem/native_credentials.py:159-177 | in a safe state a crash leaves a complete handle, and the old one under some name unless the new one is durable |
| HandleReplace.Account.Install | device/fingerprint/oem/src/fingerprint/oem/native_credentials.py:159-184 | every state during link, rename, unlink and their syncs is safe; status 0 leaves only the durable new handle |
| HandleReplace.Account.ChangeInput | device/fingerprint/oem/src/fingerprint/oem/native_credentials.py:143-207 | status 0 exactly when nothing fails and nobody cancels in time; on every other path too the states are safe, and a candidate that was written is deleted exactly when it is empty, oversize or could not be measured |
| HandleReplace.UnmeasuredIsDeleted | device/fingerprint/oem/src/fingerprint/oem/native_credentials.py:185-207 | a run that deletes a complete candidate whose `fstat` failed |
| HandleReplace.OversizeIsDeleted | device/fingerprint/oem/src/fingerprint/oem/native_credentials.py:185-207 | a run that deletes an oversize candidate |
| HandleReplace.SmoothRun | device/fingerprint/oem/src/fingerprint/oem/native_credentials.py:143-184 | a run that replaces the handle |
| Enrolment.EnrolFollowsCapture | device/fingerprint/oem/src/fingerprint/oem/fpc_build_info.c:1324-1331 | BIO_ENROL comes directly after a capture with status 0 |
| Enrolment.EndNeedsRenewal | device/fingerprint/oem/src/fingerprint/oem/fpc_build_info.c:1330-1344 | END_ENROL comes after a BIO_ENROL that returned 0 and, after that, a fetched challenge and an accepted token for it |
| Enrolment.EndsOnce | device/fingerprint/oem/src/fingerprint/oem/fpc_build_info.c:1343-1344 | END_ENROL is sent at most once |
| Enrolment.SleepIsLast | device/fingerprint/oem/src/fingerprint/oem/fpc_build_info.c:1385-1390 | nothing follows SENSOR_SLEEP |
| Enrolment.StartsWithInit | device/fingerprint/oem/src/fingerprint/oem/fpc_build_info.c:1200-1204 | SENSOR_INIT comes first, and nothing else unless it returned 0 |
| Enrolment.AtMostFortyCaptures | device/fingerprint/oem/src/fingerprint/oem/fpc_build_info.c:1308-1373 | no run sends more than 40 captures |
| Enrolment.StoreNeedsOne | device/fingerprint/oem/src/fingerprint/oem/fpc_build_info.c:1343-1358 | an export comes after an END_ENROL that returned 0, and for a new database after a count of exactly one template taken since |
| Enrolment.Client.Attempts | device/fingerprint/oem/src/fingerprint/oem/fpc_build_info.c:1308-1373 | result 0 exactly when one of the first 40 attempts completes the template after attempts that go on, and finalizing works; with exactly the commands of those attempts |
| Enrolment.Client.Run | device/fingerprint/oem/src/fingerprint/oem/fpc_build_info.c:1284-1390 | for any replies every command was allowed when sent, at most 40 captures, and a started sensor is put to sleep by the last command; result 0 exactly when nothing fails up to a completing attempt and after it, and then the commands, the finger's aside, are exactly these |
| Enrolment.OneTouchRun | device/fingerprint/oem/src/fingerprint/oem/fpc_build_info.c:1284-1390 | a run whose first touch completes the template, with its commands one by one, for a new and an existing database |
| Database.StoreDatabase | device/fingerprint/oem/src/fingerprint/oem/fpc_build_info.c:787-848 | success exactly when every call works, writes exactly the TA's bytes and sends exactly these commands; a new file is otherwise absent or complete, an old one untouched; each accepted begin is finished once |
| Database.LoadDatabase | device/fingerprint/oem/src/fingerprint/oem/fpc_build_info.c:853-906 | success exactly when the size is admitted and every call works, installs exactly the file's bytes and sends exactly these commands; each accepted begin is finished once |
| Database.StoreThenLoad | device/fingerprint/oem/src/fingerprint/oem/fpc_build_info.c:787-906 | what one session exports another reinstalls byte for byte, exactly when neither is disturbed |
| Database.Undisturbed | device/fingerprint/oem/src/fingerprint/oem/fpc_build_info.c:806-832 | a transfer goes through if every call moves at least a byte and the TA counts chunks of 4080 bytes down |
| EnrolProgress.LeastBounds | device/fingerprint/oem/src/fingerprint/libfprint-tod/fpc1264-oem.c:222-226 | the least of the counts reported is one of them and bounds them all |
| EnrolProgress.Device.OnLine | device/fingerprint/oem/src/fingerprint/libfprint-tod/fpc1264-oem.c:182-247 | after each line the stages reported are 1, 2, ... and, uncancelled, the callbacks are exactly the answers the lines call for |
| EnrolProgress.Device.Finished | device/fingerprint/oem/src/fingerprint/libfprint-tod/fpc1264-oem.c:135-170 | a print is delivered exactly on exit 0, a success line after the clean-up line, no read error, no cancellation and a readable database |
| EnrolProgress.AnswersCountUp | device/fingerprint/oem/src/fingerprint/libfprint-tod/fpc1264-oem.c:205-235 | for every stream the stage callbacks are 1 to k, k the announced stages less the least remaining count, the last one held back; all others are retries |
| EnrolProgress.StagesReported | device/fingerprint/oem/src/fingerprint/libfprint-tod/fpc1264-oem.c:205-235 | the stages reported are one for every count from the first usable one down to the lowest, zero aside |
| EnrolProgress.LineAdds | device/fingerprint/oem/src/fingerprint/libfprint-tod/fpc1264-oem.c:182-247 | what one more line adds: a retry at the stage reached, the next stages, or nothing |
| EnrolProgress.ReadStream | device/fingerprint/oem/src/fingerprint/libfprint-tod/fpc1264-oem.c:182-276 | reading a whole stream without a cancellation gives exactly those callbacks |
| Layout.AlignUpIsLeast | tools/lib/liuqin_layout.py:154-155 | alignment gives the least multiple of 4 MiB that is no smaller |
| Layout.PlanLayout | tools/lib/liuqin_layout.py:346-397 | the planner succeeds exactly on feasible requests and returns the tail described by the cut points |
| Layout.SoundMeans | tools/lib/liuqin_layout.py:386-396 | of its final checks only those on whole sectors can fail |
| Layout.PlansWheneverPossible | tools/lib/liuqin_layout.py:346-397 | the plan exists exactly when any aligned layout would meet the request, and cuts as early as any |
| Layout.TailTiles | tools/lib/liuqin_layout.py:370-396 | the tail is tiled without gap or overlap, userdata keeps its start, sizes grow by less than 4 MiB, minimums hold |
| Layout.SgdiskArguments | tools/lib/liuqin_layout.py:400-430 | the rendered command list is the one call of the plan, refused exactly when userdata would move |
| Layout.CheckedIsStock | tools/lib/liuqin_layout.py:274-291 | a device that passes the device check is classified stock exactly when no partition has the root's or home's name |
| Layout.VerifyApplied | tools/lib/liuqin_layout.py:433-449 | the loop accepts exactly the tables on which every entry landed or is gone |
| Layout.Realised | tools/lib/liuqin_layout.py:400-430 | on a stock table the call succeeds exactly when numbers 36 and 37 can be used, and then gives the planned table |
| Layout.BusyNumberRefused | tools/lib/liuqin_layout.py:274-291 | a table the device check and the planner accept, with number 36 in use, on which the call fails |
| Layout.OthersUntouched | tools/lib/liuqin_layout.py:400-458 | the new table has no overlap, every other partition is unchanged and a kept userdata keeps its identity |
| LayoutCall.FeasibleIs | tools/lib/liuqin_layout.py:346-397 | in bytes, which requests are taken: cuts on 4 MiB boundaries, 16 GiB for the root, 8 GiB for the home and 16 GiB for an Android that stays |
| LayoutCall.CallIs | tools/lib/liuqin_layout.py:400-430 | the one call option by option, with numbers 36 and 37, type 8300, the two names, and cuts at the least 4 MiB boundaries |
| LayoutCall.AfterIs | tools/lib/liuqin_layout.py:400-430 | what it leaves at numbers 36, 37 and userdata's own |
| LayoutCall.StockIs | tools/lib/liuqin_layout.py:251-271 | which tables are the factory's |
| LayoutCall.SplitIs | tools/lib/liuqin_layout.py:251-271 | which are this installer's |
| LayoutCall.DeviceIs | tools/lib/liuqin_layout.py:274-291 | and what the device check asks for |
| Layout.Recognised | tools/lib/liuqin_layout.py:251-271 | any report of the new table passes the verifier and classifies as split |
| PowerKey.AtMostOneAction | device/power-key/liuqin-power-keyd.c:216-285 | a press gets at most one action |
| PowerKey.IgnoredUntilWoken | device/power-key/liuqin-power-keyd.c:255-285 | after lost events, or a device that comes back or is opened with its key down, nothing comes of any step up to and including the next release, disconnect, return with the key up, stop or opening with the key up |
| PowerKey.PressCounts | device/power-key/liuqin-power-keyd.c:216-285 | the next press counts: `long` at its first step at or past 1500 ms, `short` when released from 40 ms on before that, nothing otherwise |
| PowerKey.OnceOverdue | device/power-key/liuqin-power-keyd.c:216-229 | after `long` nothing more comes of the same press |
| PowerKey.ExpectedPrefix | device/power-key/liuqin-power-keyd.c:231-285 | later steps never change what an earlier step called for |
| PowerKey.NextAction | device/power-key/liuqin-power-keyd.c:216-285 | the fields decide the next action exactly as the trace does |
| PowerKey.PowerFsm.Handle | device/power-key/liuqin-power-keyd.c:231-285 | each event asks for exactly the action the whole trace calls for, at any times, monotone or not |
| PowerKey.PowerFsm.OnTick | device/power-key/liuqin-power-keyd.c:216-229 | so does a poll that ran out |
| PowerKey.PowerFsm.PollTimeout | device/power-key/liuqin-power-keyd.c:287-299 | with a press pending the wait never passes its deadline and is zero only at it |
| PowerKey.RunScript | device/power-key/liuqin-power-keyd.c:301-354 | over a whole script the actions are those the trace calls for, up to a stop |

## Left out

- Cpio.LoadFrom: a header number is accepted only as eight hexadecimal digits; Python's `int(text, 16)` also takes signs, spaces, underscores and a `0x` prefix, and with a negative size the original loop can step back and need not end.
- CpioArchive.Archive.LoadBytes: the same leniency of `int(text, 16)` in the header fields.
- GptUpdate.MarkSlot: which slot runs and whether any of the device is mounted are answers given to the model; how the tool finds them out is not modelled.
- Patch.PatchExact: names without NUL bytes and entry counts and asset sizes that newc's 32-bit fields can hold.
- Patch.NoInitRefused: the witness stores its ramdisk uncompressed, which the codec parameter allows; no real compressor is modelled.
- Patch.PatchImage: the assets are taken as verified, and which of several error messages is raised is not modelled, only whether the run succeeds and with which bytes.
- The lz4 block codec and gzip are parameters assumed lossless, with nonempty blocks whose length fits 32 bits; gzip header details are theirs.
- Asset pinning by SHA-256, the printed report, argument parsing and file output of the patch tool.
- Storage.Gate.Boot: root admission, partition resolution and each call of the slot marker are single answers that may go either way; the log of a boot that is stopped is only bounded, not given exactly; the charger branch, USB gadget setup, installer links and stage 2's own mounts are not modelled, and the shell that is offered is not followed any further.
- Authorization.StepInv: poll timeouts and signals are failures that may happen at any time; the handle, credential and TA messages are not modelled beyond the challenge, and both programs are taken to start with pipes whose unused ends are closed.
- Identity.AtMostOnce: the account's private files are changed by these programs only; the child's own temporary file and lock are not modelled, nor are file modes and the signals that ask a run to stop, which end it like any other death.
- HandleReplace.Account.ChangeInput: the candidate is called complete when the runtime reports success with a plausible size; directory names survive a crash independently of each other.
- Enrolment.Client.Run: only `--bio-pipeline` and `--bio-pipeline-existing`; the commands inside an import or export are those of `Database`, and TA payloads other than statuses, challenges and counts are left out.
- Database.StoreDatabase: a TA that answers a chunk request with the right remaining count is taken to have delivered that chunk; interrupted reads and writes that are retried are not separate steps, and the file does not change under a transfer.
- `match_existing` and the verification half of the fingerprint client, which adds no new ordering rule.
- EnrolProgress.Device.OnLine: lines arrive already recognised; the text formats, the finger-status reports and the log lines are left out.
- Layout.Realised: `sgdisk` is the abstract table editor of this model, reports are compared in one letter case, and the text of reports and arguments is not modelled.
- Size strings, percentages, the plan table and the confirmation prompt of the installer.
- PowerKey.PowerFsm.Handle: times are unbounded integers, and the helper process, device discovery and the choice between event time and receipt time are left out.
