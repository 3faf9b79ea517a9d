# Verified model of Ironlock

Ironlock encrypts files with a password. This project models, in Dafny, the two parts of it that carry
its promises, proves them separately, and then proves what they promise together.

**The record stream.** A version 2 file is a 53-byte public header followed by sealed records: one with
the file name, numbered data records, and a final one that claims the total length and the number of
data records. `StreamFormat` gives the layout as functions; `StreamEncoder` and `StreamDecoder` are the
program's loops over readers that return any number of bytes, are interrupted, and may fail;
`StreamDecoding` says what the decoder must answer for each whole input, and `StreamGrammar` and
`StreamTheorems` describe the accepted files without reference to parsing. `Legacy` is version 1.
`Integrity` states authenticity.

The cipher, the password hash and UTF-8 checking are the fields of a `Suite`. Nothing is assumed of a
suite except where a hypothesis is named: `Tagged` (a tag of sixteen bytes), `Inverting` (opening undoes
sealing) and, for authenticity, `Unforgeable` (the cipher opens only what a set of honest runs with pairwise
different headers sealed) and, where files must also be accepted, `Complete` (it opens all of that).
`ToySuiteIsSound` and `IdealSuiteIsIdeal` give suites that satisfy them.

**The file protocol.** `FileSystem` is a directory of names and inodes whose inode numbers are never
reused, shared with other processes: before each operation of the program they may create, link, replace
or delete any name that is not in `held` (names they are known to leave alone) or `owned` (names the
program drew at random and still uses). Unless the volume is `reliable`, any operation may fail. Every
step, the program's or another process's, is recorded in a ghost log that starts at the disk the volume was
made with and has no gaps, so "every recorded moment" leaves no state out. A ghost `charter`, chosen by
whoever starts an undertaking, says which names and bytes must stay as they are and which inodes may lose a
name or be written; `Volume.Valid()` says that every recorded state upheld it and that every step of the
program stayed within it. On top of it stand `Quarantine`, `AtomicOutput`, `OpenOutput`, `WriteOutput`, `Overwrite` and `SecureDelete`, with
destructors called explicitly on every way out.

**Composition.** `EncryptFile` and `EncryptBatch` prove that at every recorded moment of a batch, with any
combination of `force`, `shred`, failures and interference at other names, every source is intact in its
place or decryptable from its output. `DecryptionGuard`, `DecryptFile` and `DecryptBatch` prove that a
batch of decryptions never touches an input or an earlier output. `PathKeys`, `Traversal` and `Planner`
work on the file system as a value and prove what a plan guarantees; `PlannedBatch` proves that a plan
meets the conditions of the batch.

Two places where the code does less than one might expect are stated exactly:

- A commit compares the identity of what it moved aside by following links
  (src/secure_fs.rs:592-603), so it accepts exactly what leads to the approved inode (`Vet`,
  `MoveLeadsExactly`). What it then deletes is the approved file if and only if it is no link
  (`Output.Commit`). If, after approval, the destination was replaced by a symbolic link that leads to the
  approved file, the commit goes through, unless every random name it draws is taken, and the link is deleted
  in the file's stead: `CommitDeletesLink` for every such input, `DeletedLink` for a concrete one. The inode is
  never at risk (`ProgramDestroysNothing`), and whatever else is swapped in stays in reach to the end
  (`CommitKeepsOld`).
- Changing the version byte of an honest file never yields an accepted file, as long as no version 1 file was
  written for a name that is a lone NUL byte, which no file system allows (`FlippedVersionRejected`). The
  exception is real for the format: `FlippedVersionAccepted` turns any small version 2 file of the toy cipher into
  an accepted version 1 file for that name.

## Model

| member | source | states |
|---|---|---|
| Bytes.BigEndianRoundTrip | src/stream_crypto.rs:60-72 | big-endian fields are read back as the number written, for every number that fits |
| Bytes.FromBigEndianRoundTrip | src/stream_crypto.rs:104-119 | every byte string of a field's width is the encoding of the number parsed from it |
| Bytes.XorCancels | src/stream_crypto.rs:52-58 | byte-wise exclusive-or with a fixed string is injective |
| Primitives.ToySuiteIsSound | src/crypto.rs:158-231 | the hypotheses on ciphers used for round trips can be met together |
| Streams.NextRead | src/stream_crypto.rs:42-50 | interruptions are retried; zero bytes come back exactly at the end of the data |
| Streams.Fill | src/stream_crypto.rs:187-198 | short reads are gathered until the buffer is full or the data ends, losing and repeating nothing |
| Streams.ReadExactFormat | src/stream_crypto.rs:33-40 | the exact number of bytes, or a format error exactly when the data is too short |
| StreamFormat.HeaderRoundTrip | src/stream_crypto.rs:150-169 | parsing the 53 header bytes returns the parameters, chunk size, salt and nonce written |
| StreamFormat.RecordHeaderFields | src/stream_crypto.rs:60-72 | type, sequence number and length are recovered from the thirteen header bytes |
| StreamFormat.RecordHeaderOfFields | src/stream_crypto.rs:409-431 | conversely, every thirteen bytes are the header of exactly the fields parsed from them |
| StreamFormat.RecordNoncesDistinct | src/stream_crypto.rs:52-58 | two records of one stream share a nonce if and only if they have the same sequence number |
| StreamFormat.ChunksPartition | src/stream_crypto.rs:182-222 | the chunks are the plaintext in order, none empty, all but the last full, ceil(total / 65536) of them |
| StreamEncoder.DeriveRecordNonce | src/stream_crypto.rs:52-58 | the in-place loop computes the base nonce with the sequence folded into its last eight bytes |
| StreamEncoder.WriteRecord | src/stream_crypto.rs:81-102 | appends exactly one record, and on failure a prefix of it; the size error only when the length does not fit |
| StreamEncoder.Count | src/stream_crypto.rs:204-221 | of the three checked counters only the byte total can ever overflow, and it does exactly at 2^64 |
| StreamEncoder.WriteChunks | src/stream_crypto.rs:182-222 | for every read schedule the data records of the plaintext are written; `sequence == chunkCount + 1` at the end |
| StreamEncoder.EncryptStream | src/stream_crypto.rs:136-236 | for every fragmentation the output is the one stream fixed by name, plaintext, salt and nonce; on error a prefix of it |
| StreamDecoder.ReadNextRecord | src/stream_crypto.rs:409-438 | reads what the specification reads and advances the sequence by one, or fails as the specification does |
| StreamDecoder.NewLegacy | src/stream_crypto.rs:334-352 | accepts up to 256 MiB and never reads more than one byte beyond that |
| StreamDecoder.NewStreamDecryptor | src/stream_crypto.rs:260-332 | opens exactly what the specification opens, with its errors, for every fragmentation |
| StreamDecoder.DecryptStream | src/stream_crypto.rs:362-405 | ends on every input, answers as specified and writes only specified bytes in order, whole records at a time unless the writer fails; at every turn the number of chunks is at most the total and the total at most chunks times chunk size; the chunk counter error never arises |
| StreamDecoder.StreamDecryptor.DecryptTo | src/stream_crypto.rs:358-406 | the same for both versions: on every exit what was written is a prefix of the specified plaintext, and the texts of whole records unless the writer fails |
| StreamGrammar.BodyDecodes | src/stream_crypto.rs:358-403 | a well-formed body decodes to the concatenation of its chunks and its total |
| StreamGrammar.DecodedBody | src/stream_crypto.rs:358-495 | whatever decodes is data records numbered in order, each non-empty and within the chunk size, and one matching final record |
| StreamGrammar.ReadShrinks | src/stream_crypto.rs:409-495 | every record consumes at least 29 bytes, so the loop ends |
| StreamTheorems.GrammarComplete | src/stream_crypto.rs:260-438 | every word of the grammar is accepted as the file it stands for |
| StreamTheorems.GrammarSound | src/stream_crypto.rs:260-495 | every accepted version 2 input is a word of the grammar |
| StreamTheorems.TrailingDataRejected | src/stream_crypto.rs:391-402 | bytes after an accepted body always give the format error |
| StreamTheorems.PrefixFree | src/stream_crypto.rs:358-406 | an accepted version 2 file extended by anything is not accepted: truncation and extension are noticed |
| StreamTheorems.RoundTrip | src/stream_crypto.rs:136-438 | for every UTF-8 name of 1 to 65535 bytes and every plaintext below 2^64 bytes, decoding the encoding returns both |
| StreamTheorems.EncodedLength | src/stream_crypto.rs:136-236 | a version 2 file has 129 + name + total + 29 * ceil(total / 65536) bytes |
| StreamTheorems.ChunkCountSmall | src/stream_crypto.rs:204-221 | no plaintext needs more than 2^48 chunks, far below the counters' limit |
| StreamTheorems.AcceptedCounters | src/stream_crypto.rs:365-383 | in an accepted file the number of chunks is at most the total, and the total at most chunks times chunk size; the decoder's loop keeps the same bounds for every input |
| Legacy.CreateEncryptedFile | src/crypto.rs:248-296 | the version 1 layout, exactly when the key can be derived and the name fits |
| Legacy.LegacyRoundTrip | src/crypto.rs:248-378 | version 1 files are read back for every UTF-8 name of at most 65535 bytes |
| Integrity.VersionsSeparate | src/stream_crypto.rs:74-79 | no associated data of a version 1 file equals one of a version 2 record |
| Integrity.AcceptedStreamIsHonest | src/stream_crypto.rs:274-495 | an accepted version 2 input equals one honest run's file byte for byte: no truncation, reordering, duplication or splicing |
| Integrity.AcceptedLegacyIsHonest | src/crypto.rs:301-378 | an accepted version 1 input equals an honest version 1 file |
| Integrity.AcceptsExactlyHonestFiles | src/stream_crypto.rs:260-495 | accepted inputs are exactly the files of honest runs whose key the password derives, each with its own name and content |
| Integrity.AuthenticTexts | src/stream_crypto.rs:368-403 | for any input at all, the texts handed to the writer are the first chunks of one honest run, whose name the input claims |
| Integrity.AuthenticatedPrefix | src/stream_crypto.rs:368-403 | for any input at all, and also when the reader fails, what is written is a prefix of one honest plaintext and ends between chunks |
| Integrity.FlippedVersionRejected | src/stream_crypto.rs:260-272 | no honest file is accepted with its version byte changed, if no version 1 file was written for a name that is a lone NUL |
| Integrity.FlippedVersionAccepted | src/stream_crypto.rs:260-272 | with a version 1 run for that name on record, a version 2 file with its version byte changed is accepted |
| Integrity.IdealSuiteIsIdeal | src/stream_crypto.rs:74-102 | the authenticity hypotheses can be met for every set of honest runs |
| FileSystem.Volume.RenameNoReplace | src/secure_fs.rs:417-441 | the atomic rename that never replaces: it fails when the new name exists |
| Quarantine.MoveBack | src/secure_fs.rs:697-705 | moving a file aside and back restores the directory exactly |
| Quarantine.MoveLeadsExactly | src/secure_fs.rs:592-603 | what was moved aside leads, links followed, to an inode exactly if it led there before |
| Quarantine.TempNameInjective | src/secure_fs.rs:303-309 | different random values give different private names |
| Quarantine.NewQuarantinedFile | src/secure_fs.rs:648-671 | whatever is at the name is moved whole to a fresh private name, or nothing changes; on a quiet reliable volume it fails only if private names are taken |
| Quarantine.QuarantinedFile.Remove | src/secure_fs.rs:678-695 | on success the step that removed the name, with this file behind it, is on record and no other removal of the name is; otherwise the file waits under its private name or is back in its place |
| Quarantine.QuarantinedFile.Restore | src/secure_fs.rs:697-711 | puts the file back only where nothing is, and only then counts as done; on a reliable volume it does so whenever the name is free and left alone |
| OpenOutput.CheckOverwrite | src/secure_fs.rs:32-56 | an existing file passes only with force or consent and only if it is a regular file, and then always passes |
| OpenOutput.EnsureSafeDirectory | src/secure_fs.rs:101-135 | only missing ancestors are created; names below the directory stay as they were |
| OpenOutput.ObserveDestination | src/secure_fs.rs:547-573 | on a quiet volume, or at a held name, the inode observed is the one there, approved by force or consent |
| OpenOutput.CreatePrivateTemp | src/secure_fs.rs:391-407 | a fresh empty inode under a fresh name |
| OpenOutput.NewOutput | src/secure_fs.rs:544-579 | only creates names; without force and consent an existing destination is refused and stays; it fails only for a stated cause |
| WriteOutput.WriteOut | src/secure_fs.rs:963-968 | only the staged inode is written: all the data, or on failure a prefix of it |
| AtomicOutput.Vet | src/secure_fs.rs:592-603 | passes exactly what leads to the approved inode, and then it is the approved file or a link; anything else goes back, unless something took its place |
| AtomicOutput.Output.InstallFresh | src/secure_fs.rs:606-620 | with nothing approved, a file that appeared meanwhile is never replaced |
| AtomicOutput.Output.Commit | src/secure_fs.rs:585-639 | names change only by the listed moves; the complete file is synced, then installed where nothing was, then the directory synced, and only then what was moved aside removed, which is the approved file exactly if it is no link; on failure before the install the directory is as before, less the temporary file, whenever nothing is left under the private names, and on a reliable volume nothing is |
| CommitTheorems.ProgramDestroysNothing | src/secure_fs.rs:585-711 | no step takes the last name of an inode that is neither the program's own nor approved, nor changes its bytes |
| CommitTheorems.ProgramReplacesNothing | src/secure_fs.rs:585-711 | a name is only ever given when it is free |
| CommitTheorems.SparedStaysInReach | src/secure_fs.rs:585-711 | a step that does not delete a file from under its private name leaves it at the destination or there, and others cannot take it away where they leave the destination alone |
| CommitTheorems.ReachableThroughout | src/secure_fs.rs:585-711 | over any stretch of such steps the file stays in reach at every recorded moment |
| CommitTheorems.CommitSpares | src/secure_fs.rs:585-639 | until it has settled a commit deletes nothing but the temporary file, and after that only what it had moved aside |
| CommitTheorems.CommitKeepsOld | src/secure_fs.rs:585-639 | among arbitrary failures and beside any other processes no step of a commit puts the old file out of reach before the commit has settled, nor, before or after, a file swapped in that is no link; if others leave the destination alone it is in reach at every recorded moment |
| CommitTheorems.CommitDeletesLink | src/secure_fs.rs:592-639 | a link in the approved file's place that leads to it is deleted by a commit that succeeds, and every name of the file itself stays |
| CommitTheorems.DeletedLink | src/secure_fs.rs:592-639 | a concrete run in which that happens |
| CommitTheorems.UntouchedExactly | src/secure_fs.rs:585-711 | after a commit that failed before the install the destination is what it was exactly if nothing waits under the private name |
| Overwrite.PassCoversOnce | src/secure_fs.rs:756-769 | one pass writes every position of the file exactly once, nothing beyond it, at most 1 MiB at a time |
| Overwrite.OverwriteThrice | src/secure_fs.rs:756-774 | the recorded writes are exactly three passes, or on failure some of them; the length stays |
| SecureDelete.VerifiedSourceFile | src/secure_fs.rs:289-301 | the file opened is the one the name stands for, when the name is left alone |
| SecureDelete.SecureDeleteInner | src/secure_fs.rs:719-792 | every byte written goes to the captured inode, deletion only after three complete passes, and on failure the file is at its name or its private one; a file with one name is deleted unless something fails |
| Goals.SourceKept | src/secure_fs.rs:954-974 | while the charter keeps the source, its data is safe at every recorded moment |
| Goals.OutputKept | src/secure_fs.rs:970-974 | while the charter keeps the output, the source's data is recoverable at every recorded moment |
| EncryptFile.FillOutput | src/secure_fs.rs:963-968 | the staged file is filled with an encryption of the source's bytes under its own name |
| EncryptFile.EncodingDecrypts | src/secure_fs.rs:963-969 | such a file decrypts to the source's name and bytes |
| EncryptFile.EncryptFileToPath | src/secure_fs.rs:932-974 | at every recorded moment the source is intact or its output decrypts to it; without shred it is intact; success means a decryptable output, and shredding removes the source; without force and consent an existing output stays; a feasible encryption on a quiet reliable volume succeeds |
| EncryptBatch.SafeDuring | src/main.rs:235-246 | while one item is worked on, all items stay safe |
| EncryptBatch.ProgressStep | src/main.rs:235-246 | after each item one of its two files is pinned, and no other pin is lost |
| EncryptBatch.EncryptAll | src/main.rs:235-246 | no run loses data: every source is intact or decryptable from its output at every recorded moment; every item reported as done has a decryptable output |
| Counters.NothingCounted | src/main.rs:159-187 | both counters are zero exactly if every result was a success |
| Counters.Counters.HandleResult | src/main.rs:140-157 | the counters stand for the results so far, cancellations counted as skipped |
| Counters.Counters.Summary | src/main.rs:159-187 | the batch is a success exactly if every item was; otherwise failures and skips are reported in number |
| Names.SanitizedExact | src/secure_fs.rs:995-1006 | a claimed name is reduced to its last component, exactly when that is a plain name; the closing filter never fires |
| Names.PlainNameSurvives | src/secure_fs.rs:995-1006 | a plain name is taken as it is |
| Names.NameParts | src/secure_fs.rs:811-825 | stem and extension determine the name; a leading dot starts no extension |
| Names.EncryptedNameParts | src/secure_fs.rs:811-825 | the default output has the extension that decryption asks for and the stem of the source |
| Names.HexInjective | src/secure_fs.rs:833-837 | different random suffixes give different names |
| Names.DecryptedVariantDiffers | src/secure_fs.rs:1008-1030 | the random alternative is a plain name longer than the original |
| DecryptionGuard.NewGuard | src/secure_fs.rs:1144-1163 | all sources have names and inodes of their own, captured before anything is written; regular files are refused only if two are one |
| DecryptionGuard.DecryptionBatchGuard.Reserve | src/secure_fs.rs:1165-1205 | accepted outputs are all different, no source and no alias of one; a refusal changes nothing |
| DecryptFile.DestinedInside | src/secure_fs.rs:1069-1074 | whatever the file claims to be called, its output lies directly in the chosen directory |
| DecryptFile.NameOutput | src/secure_fs.rs:1069-1074 | the sanitized name, or a variant of it where it would be the source |
| DecryptFile.FillDecrypted | src/secure_fs.rs:1079-1083 | success means that the staged file holds the complete plaintext of an accepted file |
| DecryptFile.CommitPlaintext | src/secure_fs.rs:585-639 | the plaintext is installed in one step, whole; otherwise the destination is what it was or, if a failure kept the old file from being put back, that file waits under its private name; on a reliable volume the destination is what it was |
| DecryptFile.DecryptFileToPath | src/secure_fs.rs:1052-1085 | the output is the complete plaintext of an accepted file, or what it was, or, if a failure kept the old file from being put back, that file waits under its private name, which a reliable volume excludes; nothing promised to others is disturbed at any recorded moment; a deliverable file on a quiet reliable volume is delivered |
| DecryptFile.EncryptThenDecrypt | src/secure_fs.rs:932-1085 | what was encrypted under a name comes back under that name, byte for byte |
| DecryptBatch.WatchedGrows | src/main.rs:273-283 | a delivered output joins the pinned files without conflict |
| DecryptBatch.AllDeliveredStep | src/main.rs:273-283 | outputs delivered in earlier turns stay as they are in later ones |
| DecryptBatch.DecryptAll | src/main.rs:258-285 | no input changes at any recorded moment; outputs have names of their own, appear whole and stay; every item reported as done was delivered |
| Order.LexOrder | src/secure_fs.rs:880 | comparing element by element is a total order |
| Order.SortSorts | src/secure_fs.rs:880 | sorting yields a sorted permutation |
| Order.SortedUnique | src/secure_fs.rs:880 | there is only one sorted permutation |
| PathKeys.SameSpelling | src/secure_fs.rs:183-192 | `.`, a step down and up again, and `..` at the root do not change the place a path spells |
| PathKeys.NormalizedPathKey | src/secure_fs.rs:177-225 | the peeling loop ends and computes the key |
| PathKeys.KeyExact | src/secure_fs.rs:194-219 | the key is the longest prefix that resolves, in canonical form, followed by the missing components in order, and exists only so |
| PathKeys.LstatResolves | src/secure_fs.rs:177-225 | what a path names, unless it is a link, is what it resolves to |
| PathKeys.ResolvedIsThere | src/secure_fs.rs:227-239 | a path that resolves names something, so an absent output has no identity |
| PathKeys.CanonIsLexical | src/secure_fs.rs:177-225 | a path that passes no link resolves to the place it spells |
| PathKeys.KeyIsPlace | src/secure_fs.rs:177-225 | a place that is not reached through links has a key exactly if only directories are on the way to it, and then it is its own key |
| PathKeys.KeyIdempotent | src/secure_fs.rs:177-225 | a key is its own key; paths that pass no link share a key exactly if they spell one place |
| PathKeys.KeyTextInjective | src/secure_fs.rs:221-224 | different places have different key texts |
| Traversal.ScanDirectory | src/secure_fs.rs:1102-1124 | the entries of one directory are all sorted into files and subdirectories, or a link or special file is refused |
| Traversal.StackStep | src/secure_fs.rs:1100-1125 | the directories on the stack never lie inside one another |
| Traversal.CoverStep | src/secure_fs.rs:1100-1125 | nothing is dropped: every file is collected or lies below a directory still on the stack |
| Traversal.AheadStep | src/secure_fs.rs:1100-1125 | every turn leaves fewer directories ahead, so the loop ends |
| Traversal.CollectBelow | src/secure_fs.rs:1097-1128 | the result is the sorted, duplicate-free list of all regular files below the root, exactly when there is no link and no special file there |
| Traversal.CollectFilesRecursive | src/secure_fs.rs:1087-1128 | the same for any spelling of a directory; anything else is refused |
| Traversal.ListingUnique | src/secure_fs.rs:1087-1128 | the order in which directories are read does not matter |
| Planner.CollectInputs | src/secure_fs.rs:849-882 | a sorted permutation of what the inputs stand for: files themselves, directories their unencrypted files; it fails exactly if some input is no file or tree of files |
| Planner.CollectedUnique | src/secure_fs.rs:849-882 | the inputs alone determine the collected files |
| Planner.PathsReferToSameFile | src/secure_fs.rs:227-239 | the answer is yes exactly if both paths have one key or lead to one file, and it fails exactly for a missing key or identity or a link as output |
| Planner.OneFileExactly | src/secure_fs.rs:227-239 | for a file and an output that is absent or a file, neither reached through links, the question is answered, and with yes exactly if they are one place or two names of one inode |
| Planner.CheckSources | src/secure_fs.rs:885-897 | success means keys and identities are pairwise different; the duplicate error means that two are not |
| Planner.CountDefaults | src/secure_fs.rs:898-907 | a default is counted more than once exactly if two sources share it |
| Planner.UniqueEncryptedPath | src/secure_fs.rs:827-847 | a random sibling whose key is free and which does not exist |
| Planner.PlanOne | src/secure_fs.rs:911-919 | the default is kept exactly if it is not shared, not taken and not the source itself |
| Planner.CollisionTest | src/secure_fs.rs:911-914 | the program's test is true exactly if another default, a source or an earlier output has the default's key, or the default is the source itself |
| Planner.CollidesByPlace | src/secure_fs.rs:227-239 | where no links are passed that means: has the default's place, or is the source's inode |
| Planner.PlanSources | src/secure_fs.rs:908-929 | one output per source, keys pairwise different and different from every source's; the closing error never arises |
| Planner.PlanEncryptionInputs | src/secure_fs.rs:884-930 | the whole plan, with one entry per collected source in sorted order; it fails only for a stated cause or for want of random names, and a collision error means just that |
| PlannedBatch.CollectedAreFiles | src/secure_fs.rs:849-882 | whatever is collected is a regular file |
| PlannedBatch.PlanMakesBatch | src/secure_fs.rs:884-974 | a plan whose paths pass no links meets every condition under which the batch loses no data |

## Left out

- The cipher and password hash themselves, random number generation, and UTF-8 validity: parameters or arbitrary values.
- Locked memory and zeroization (src/memlock.rs): they have no functional content.
- Command line, prompts, progress bars and messages; the user's answer to an overwrite question is a parameter.
- Standard input and output mode (src/main.rs:64-83): the stream without the file protocol.
- Platform variants of the system calls, permission bits and ACLs: one contract for the rename that never replaces; the non-atomic fallbacks at src/secure_fs.rs:468-484 and 513-522 are not modelled.
- Durability: syncing is a step that can fail, in its order among the others; what survives a power loss is not modelled.
- Changes other processes make in place to the bytes of existing files: they may do anything to names that are neither held nor owned, and create files, but not write to inodes that are there.
- Contents of a directory that is renamed: names are independent of each other in `FileSystem`, so moving a directory does not move what is below it.
- EncryptFile.FillOutput: the staged file is written after the encoder has produced its output, in pieces of any size; the interleaving of both is not modelled. A reader sees the bytes an opened source has when it is opened.
- DecryptFile.FillDecrypted: likewise, the decoder has finished when the staged file is written.
- RandomTempPath: never draws the very name of the file it is drawn for, because two 64-bit random values would have to spell it.
- DecryptionGuard.NewGuard: takes paths to be their normal forms, so that key lookups do not fail; `PathKeys` and `Planner` treat spelled paths, links in paths and failing lookups. The same holds of the rest of the file protocol.
- DecryptionGuard.DecryptionBatchGuard.Reserve: likewise, compares outputs by their normal forms.
- Conversion of keys to lossy text and to lower case (src/secure_fs.rs:221-223).
- plan_decryption_inputs (src/secure_fs.rs:1208-1289): the guard checks again what it checks, and the batch theorem holds for any list of sources and target directories.
- Deletion without an expected identity (src/secure_fs.rs:807-809), used by tests only.
- EncryptBatch.EncryptAll: asks that other processes leave the planned names alone; for other names `AtomicOutput.Output.Commit` and `CommitTheorems` say what still holds.
- PlannedBatch.PlanMakesBatch: says nothing of planned paths that pass links; creating an output below a link is refused when its directory is checked (src/secure_fs.rs:101-135).
- Planner.PlanEncryptionInputs: takes the file system as it stands while planning.
