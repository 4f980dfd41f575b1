# A verified model of the biometric authentication framework

The framework enrols fingerprints, keeps them in an SQLite table and compares them for
applications over D-Bus. This project models the four parts that hold its loops, its
arithmetic and its shared state, and proves what they are for:

* **Cipher.** AES-128 as the community driver runs it, in place on a 4x4 state and an 11x4x4
  schedule, and its cipher feedback mode. Modules `Gf256`, `FieldBits`, `AesTables`,
  `SBoxMeaning`, `ColumnMixing`, `Aes` (FIPS 197 as functions), `AesEntries` (the same entry by entry),
  `AesInPlace` (the loops), `Cfb` (section 6.3 of NIST SP 800-38A over any block cipher), `CfbInPlace`
  (the loops).
* **Template pipeline.** The base64 coder (section 4 of RFC 4648) and the way of a template
  into the table and back. Modules `Base64`, `Base64Text` (the text in characters), `TemplatePipeline`.
* **Feature store.** Rows, queries and their order, the one-pass grouping, insertion, ranged
  deletion, update by id, the index allocator, rename, the driver ids and the format upgrade.
  Modules `FeatureRows`, `FeatureGrouping`, `FeatureStore`, `StoreRoundTrip`, `FeatureClean`,
  `IndexAllocator`, `FeatureRename`, `DriverIds`, `Migration`.
* **Daemon.** Handler threads, locks per driver, results read after unlocking, as a transition
  system. Modules `Daemon`, `DaemonTable`, `DaemonIndices`, `DaemonNobody`, `DaemonReplies`,
  `DaemonAnswers`, `DaemonProgress`.

`dafny verify dfyconfig.toml` checks everything.

How the outside appears in the model: the outcome of every SQLite call, library callback and
device operation is a parameter or an event; the UUID of a user is a function of the uid that
does not change during a call or a run; the rows that SQLite delivers are any arrangement that
the `ORDER BY` clause allows, ties in any order (`FeatureRows.Answers`), or the first rows of one
if a statement fails on the way (`FeatureRows.Delivers`).

## Where the code does less than it seems to promise

Each point has a lemma with the exact condition, and most a concrete counterexample.

* **Grouping.** The pass tests `old_uid < uid` after having overwritten `old_uid` for a row
  that it then skips. If two users share a UUID (which is what users without a home directory
  do), features of both can be listed as one. `FeatureGrouping.PassIsExact` gives the condition
  on the rows under which the list is right, in both directions. Even then no sample is lost or
  repeated (`FeatureGrouping.PassConserves`).
* **Index allocator.** A list that was cut short by a failing statement cannot be told from a
  complete one. The index chosen from `m` entries is taken exactly when `m` is below the least
  free index, so that a list that is cut short behind the first gap does no harm
  (`IndexAllocator.ChoiceIsFree`, `DaemonIndices.ChoiceDecides`); with nothing delivered it collides
  whenever the index 0 is used (`DaemonIndices.CutShortCollides`). An upper bound makes the search
  give -1 unless a used index follows the least free one; without one an empty list gives 0 even
  when the search starts higher (`IndexAllocator.GetEmptyIndex`).
* **The uid -1.** For it the query of the allocator drops the restriction to one user, and the
  features of all users follow its own in the list. Two automatic enrolments for it can come to
  share an index although every list is whole: `DaemonNobody.NobodyCollides` is such a run from an
  empty table, `IndexAllocator.NobodysChoice` and `DaemonIndices.ChoiceDecides` say exactly when it
  happens, and `DaemonIndices.NoCollisions` covers all runs in which it does not. The pass and the
  insertion start with the uid -1 and an empty UUID. So its migrated rows, which have another one,
  are not listed, and its enrolled rows are not listed behind a lower uid: the exact conditions are
  in `Migration.MigratedIsShown` and `TemplatePipeline.EnrolledIsLoaded`. A rename for it can move
  a sample of another user that a stale merge put into its entry (`FeatureRename.Rename`); as users
  have UUIDs, this makes no row visible.
* **Upgrade.** The result of `BEGIN`, the way the `SELECT` ends and the result of `COMMIT` are
  not tested. `Migration.AllOrNothing` says exactly when nothing in between the old and the new
  tables can be left, and `Migration.LeftBehind` what else is left without a transaction; a `SELECT` that stops early commits rows without a UUID, which a query that
  reaches them copies without a test.
* **Template buffer.** Two bytes per byte and one more hold the encoded text except for a
  template of one byte (`Base64.EncodedFits`).
* **Driver ids.** The 924th driver gets an id past the lock array, and after it the scan for an
  id reads past its flags (`DriverIds.TooManyDrivers`).
* **FFmul** is the product in the field if and only if its first factor is below 16, as in all of
  its calls, or its second one is 0 (`FieldBits.TimesIsExact`).
* **Rename** returns 0, its value for success, when the query for the samples fails, and when it
  stops early and the samples that it did deliver were all updated. `FeatureRename.Rename` says
  that 0 means the latter, and when that is the whole feature.
* **Replies.** A handler reads the result of its device after it has released the lock.
  `DaemonReplies.MatchOfAnother` is a run in which one that found no match answers a success,
  because another handler's match came in between; `DaemonReplies.OwnMatchDecides` says for all runs
  that the match is its own exactly when no other handler wrote to the device in between,
  `DaemonReplies.IdentifiedUid` which uid goes with the success of an identification, and
  `DaemonAnswers.LastWriteDecides` what every reply follows from.

## Model

| member | source | states |
|---|---|---|
| Gf256.FFmul | src/drivers/community-multidevice/aes_128_cfb.c:147-165 | the loops compute the sum of the multiples of b by 1, x, x^2, x^3 that the low four bits of a select |
| Gf256.FillMultiples | src/drivers/community-multidevice/aes_128_cfb.c:153-158 | every multiple is the previous one times x, reduced |
| Gf256.TimesIsPolynomialProduct | src/drivers/community-multidevice/aes_128_cfb.c:147-165 | for a below 16, a byte equals FFmul(a, b) if and only if it is congruent to the polynomial product a b modulo x^8+x^4+x^3+x+1 |
| Gf256.RemainderUnique | src/drivers/community-multidevice/aes_128_cfb.c:153-158 | a 15-bit polynomial is congruent to exactly one byte |
| Gf256.TimesAdditive | src/drivers/community-multidevice/aes_128_cfb.c:147-165 | FFmul is additive in its second argument, for every first one |
| FieldBits.TimesIsExact | src/drivers/community-multidevice/aes_128_cfb.c:147-165 | for every pair of bytes, FFmul(a, b) is the remainder of the polynomial product if and only if a is below 16 or b is 0 |
| AesTables.InvUndoesSBox | src/drivers/community-multidevice/aes_128_cfb.c:28-65 | the second table undoes the first |
| AesTables.SBoxUndoesInv | src/drivers/community-multidevice/aes_128_cfb.c:28-65 | the first table undoes the second |
| SBoxMeaning.SBoxIsAffineInverse | src/drivers/community-multidevice/aes_128_cfb.c:28-46 | each entry is the affine transformation of FIPS 197, section 5.1.1, of a byte whose product with the index leaves remainder 1 |
| ColumnMixing.MixColumnInverse | src/drivers/community-multidevice/aes_128_cfb.c:190-245 | the matrices of mixColumns and invMixColumns are inverses of each other on every column |
| ColumnMixing.InvMixIsMixOfSquare | src/drivers/community-multidevice/aes_128_cfb.c:230-245 | the inverse matrix is the mixing matrix times its square |
| Aes.SubBytesInverse | src/drivers/community-multidevice/aes_128_cfb.c:167-214 | byte substitution and its inverse cancel in both orders |
| Aes.ShiftRowsInverse | src/drivers/community-multidevice/aes_128_cfb.c:176-228 | the row shifts cancel in both orders |
| Aes.MixColumnsInverse | src/drivers/community-multidevice/aes_128_cfb.c:190-245 | the column mixings cancel on every state |
| Aes.BackwardFollowsForward | src/drivers/community-multidevice/aes_128_cfb.c:97-145 | before a round key is removed, the inverse cipher is where the cipher was in that round |
| Aes.CipherInverse | src/drivers/community-multidevice/aes_128_cfb.c:97-145 | for any eleven round keys, expanded or not, the two ciphers undo each other in both orders |
| Aes.BlockInverse | src/drivers/community-multidevice/aes_128_cfb.c:97-145 | the same for 16-byte blocks, including the layout of bytes in the state |
| AesEntries.MixColumnsEntry | src/drivers/community-multidevice/aes_128_cfb.c:190-205 | every entry of every column is the sum of 2, 3, 1 and 1 times the four entries of its column from its own row down, wrapping around |
| AesEntries.InvMixColumnsEntry | src/drivers/community-multidevice/aes_128_cfb.c:230-245 | the same with 14, 11, 13 and 9 |
| AesEntries.RoundEntry | src/drivers/community-multidevice/aes_128_cfb.c:97-121 | every entry of the state after a round from the entries before it: the key, nine rounds of substitution, shift, mixing and key, and a tenth without mixing |
| AesEntries.InvRoundEntry | src/drivers/community-multidevice/aes_128_cfb.c:123-145 | the same for the inverse cipher, from the tenth key to the first |
| AesEntries.BlockEntry | src/drivers/community-multidevice/aes_128_cfb.c:97-145 | byte 4c + r of a block enters and leaves the ten rounds in row r, column c |
| AesEntries.ScheduleEntry | src/drivers/community-multidevice/aes_128_cfb.c:67-95 | the recurrence of the schedule for every entry of every round key, over the substitution table and the powers of x |
| AesInPlace.SubBytesInPlace | src/drivers/community-multidevice/aes_128_cfb.c:167-174 | the loops apply the substitution table to every entry of the state |
| AesInPlace.InvSubBytesInPlace | src/drivers/community-multidevice/aes_128_cfb.c:207-214 | the loops apply the inverse table to every entry |
| AesInPlace.ShiftRowsInPlace | src/drivers/community-multidevice/aes_128_cfb.c:176-188 | row r moves r columns to the left, through a temporary row |
| AesInPlace.InvShiftRowsInPlace | src/drivers/community-multidevice/aes_128_cfb.c:216-228 | row r moves r columns to the right |
| AesInPlace.MixColumnsInPlace | src/drivers/community-multidevice/aes_128_cfb.c:190-205 | every entry of every column becomes the sum of 2, 3, 1 and 1 times the old entries of its column |
| AesInPlace.InvMixColumnsInPlace | src/drivers/community-multidevice/aes_128_cfb.c:230-245 | the same with 14, 11, 13 and 9 |
| AesInPlace.AddRoundKeyInPlace | src/drivers/community-multidevice/aes_128_cfb.c:247-254 | every entry of the round key is added to its entry of the state |
| AesInPlace.RoundConstantsArePowers | src/drivers/community-multidevice/aes_128_cfb.c:70 | the table of round constants holds the powers of x |
| AesInPlace.ExpandWord | src/drivers/community-multidevice/aes_128_cfb.c:76-94 | one turn writes one word by the recurrence of FIPS 197, section 5.2, and leaves the 43 others |
| AesInPlace.KeyExpansion | src/drivers/community-multidevice/aes_128_cfb.c:67-95 | whatever the static schedule held, it becomes the schedule of the first 16 key bytes; every entry of the array follows the recurrence of FIPS 197, section 5.2 |
| AesInPlace.CipherInPlace | src/drivers/community-multidevice/aes_128_cfb.c:97-121 | the first 16 bytes of the output are the enciphered input, even if both are one buffer; the others stay |
| AesInPlace.InvCipherInPlace | src/drivers/community-multidevice/aes_128_cfb.c:123-145 | the same for the inverse cipher |
| Cfb.ChainedIsEncryption | src/drivers/community-multidevice/aes_128_cfb.c:258-368 | one relation, the chaining equation of every byte, holds if and only if the ciphertext is the encryption, and if and only if the plaintext is the decryption |
| Cfb.EncryptedByte | src/drivers/community-multidevice/aes_128_cfb.c:282-307 | the exclusive or of a plaintext byte and its ciphertext byte is the byte of the block cipher's output for the vector, or from the second block on for the ciphertext block before |
| Cfb.DecryptedByte | src/drivers/community-multidevice/aes_128_cfb.c:338-363 | the same equation for decryption |
| Cfb.ZerosShowKeyStream | src/drivers/community-multidevice/aes_128_cfb.c:297-302 | up to one block of zeros is encrypted to the output for the vector itself |
| Cfb.CfbRoundTrip | src/drivers/community-multidevice/aes_128_cfb.c:258-368 | both directions undo each other at every length, for every block cipher and initialization vector |
| Cfb.EncryptionIsCausal | src/drivers/community-multidevice/aes_128_cfb.c:282-309 | the encryption of a prefix is the prefix of the encryption |
| Cfb.DecryptionIsCausal | src/drivers/community-multidevice/aes_128_cfb.c:338-365 | the decryption of a prefix is the prefix of the decryption |
| Cfb.DecryptionIsLocal | src/drivers/community-multidevice/aes_128_cfb.c:338-365 | from the second block on, a decrypted byte depends on its ciphertext byte and the block before only |
| CfbInPlace.Segment | src/drivers/community-multidevice/aes_128_cfb.c:282-307 | one round combines the next segment, cut off at the end of the data, with the key stream of the fed block |
| CfbInPlace.AesUnderIs | src/drivers/community-multidevice/aes_128_cfb.c:280-295 | both directions of the mode run the forward cipher under the expansion of the first 16 key bytes |
| CfbInPlace.Encrypt | src/drivers/community-multidevice/aes_128_cfb.c:258-312 | the loop writes the encryption under the first 16 bytes of key and vector, returns its length and leaves the rest of the buffer |
| CfbInPlace.Decrypt | src/drivers/community-multidevice/aes_128_cfb.c:314-368 | the same for decryption |
| Base64.RoundTrip | src/lib/biometric_common.c:80-165 | decoding an encoding gives back the bytes, for every length |
| Base64.EncodesBits | src/lib/biometric_common.c:80-118 | digit k of the text holds bits 6k to 6k+5 of the data, with zeros behind its end |
| Base64Text.EncodedCharacter | src/lib/biometric_common.c:80-118 | character k of the text is the one of the written-out alphabet whose number is bits 6k to 6k+5 of the data, with zeros behind its end; every later character is an equals sign |
| Base64.EncodedIsText | src/lib/biometric_common.c:116-117 | no character before the terminator is NUL |
| Base64.TextLengthIs | src/lib/biometric_common.c:86-117 | the text has four characters for every three bytes that are begun |
| Base64.EncodedFits | src/drivers/community-multidevice/close.c:143 | text and terminator fit into 2n+1 bytes if and only if n is not 1 |
| Base64.EncodeQuad | src/lib/biometric_common.c:86-115 | one turn of the encoder writes the next quadruple, and says whether it was the last |
| Base64.EncodeInto | src/lib/biometric_common.c:80-118 | text and a zero byte are written to the start of the buffer, nothing else changes, and the length is returned |
| Base64.FindValue | src/lib/biometric_common.c:130-135 | the search over the alphabet gives the number of a character, 0xff if it has none |
| Base64.DecodeInto | src/lib/biometric_common.c:120-165 | for every text that the decoder reads within the text and its terminator, well-formed or not, exactly the decoded bytes are written and counted |
| Base64.ReadableIs | src/lib/biometric_common.c:127-164 | these are exactly the texts of whole quadruples and those with a padding character in the third or fourth place of some quadruple |
| Base64Text.DecodedBit | src/lib/biometric_common.c:120-165 | bits 6k to 6k+5 of what the decoder gives are those of the number of character k, for every text that it reads |
| Base64Text.ValueIs | src/lib/biometric_common.c:130-135 | this number is the one of the character in the written-out alphabet, or eight ones for any other character |
| Base64Text.DecodedLength | src/lib/biometric_common.c:150-164 | the decoder stops with the first equals sign at the third or fourth place of a quadruple |
| TemplatePipeline.AesEncrypt | src/drivers/community-multidevice/driver_internal.c:286-301 | the wrapper encrypts with the vector 0 to 15 |
| TemplatePipeline.AesDecrypt | src/drivers/community-multidevice/driver_internal.c:303-318 | the wrapper decrypts with the same vector |
| TemplatePipeline.FixedVectorIs | src/drivers/community-multidevice/driver_internal.c:286-318 | byte i of the fixed vector is i |
| TemplatePipeline.EncodeTemplate | src/drivers/community-multidevice/close.c:142-156 | enrolment stores the encoded encryption of a template of any size but 1, with all writes inside its buffers |
| TemplatePipeline.DecodeTemplate | src/drivers/community-multidevice/close.c:259-272 | loading decrypts the decoded text, with zeros up to the sample number behind it, within buffers of that size; so the first bytes are the decryption of the decoded text, for every readable text that decodes to no more bytes than the number |
| TemplatePipeline.PipelineRoundTrip | src/drivers/community-multidevice/close.c:142-156 | the stored text is a C string of whole quadruples that decodes to as many bytes as the template has and loads as the template |
| TemplatePipeline.EnrolledIsLoaded | src/drivers/community-multidevice/close.c:248-285 | after enrolment under an unused index, any answer of the query for that index lists the feature once, with one sample that loads as the template; for the uid -1 if and only if the query selects no row of a lower uid |
| FeatureRows.EveryQueryIsAnswered | src/lib/biometric_storage.c:348-361 | for every query and table there is an arrangement that the ORDER BY clause allows |
| FeatureRows.AnswerSelects | src/lib/biometric_storage.c:325-361 | an answer has exactly the rows that the restrictions of the query allow, each as often as the table; -1 and NULL restrict nothing |
| FeatureRows.StringLessIs | src/lib/biometric_storage.c:359-361 | text is ordered by the first character in which it differs, a prefix before what it begins |
| FeatureGrouping.Group | src/lib/biometric_storage.c:416-485 | the loop with its old_ variables computes the pass, and never compares the driver that is NULL at first |
| FeatureGrouping.ListedIsIndex | src/lib/biometric_storage.c:325-498 | the expected list has one entry for every key among the visible rows and no other, in strict order; an entry has the name of the first and the samples of all visible rows with its key, in order |
| FeatureGrouping.EntryInOrder | src/lib/biometric_storage.c:359-361 | an entry has the least name of its rows, and their samples by name and then by number |
| FeatureGrouping.PassIsExact | src/lib/biometric_storage.c:416-485 | over sorted rows with types at least 0, the pass gives the expected list if and only if no stale merge is due; the uid -1 counts as having an empty UUID when it comes first |
| FeatureGrouping.PassConserves | src/lib/biometric_storage.c:416-485 | merged or not, the samples of the list are those of the visible rows, each once and in order |
| FeatureGrouping.DistinctUuidsSuffice | src/lib/biometric_storage.c:430-440 | if users with rows have different UUIDs, no stale merge is due |
| FeatureGrouping.SharedUuidMerges | src/lib/biometric_storage.c:900-920 | two users with the default UUID and three rows: one entry instead of two |
| FeatureStore.Table.Get | src/lib/biometric_storage.c:325-498 | whatever part of an answer is delivered, the samples of the list are those of the visible delivered rows, which are rows of the table in the range; the list is their index unless a stale merge is due |
| FeatureStore.Table.Set | src/lib/biometric_storage.c:500-575 | insertion adds the rows of the list with fresh ids and the UUID of each entry's user, an empty one for the uid -1 at the start of the list; exactly those before the first failing statement if one fails |
| FeatureStore.Table.SetSamples | src/lib/biometric_storage.c:522-572 | the loop over entries and samples visits every sample once, in order, and asks for a UUID when the uid changes |
| FeatureStore.Table.Clean | src/lib/biometric_storage.c:577-643 | after a successful clean the kept and the removed rows make up the old table, the range is empty, and every query gives its old rows without the removed ones; after a failed one nothing has changed |
| FeatureStore.CleanedRow | src/lib/biometric_storage.c:603-610 | for every row, a clean removes it if and only if its index is in the bounds and its uid, type and driver are the given ones or not restricted; an empty driver name restricts nothing |
| FeatureStore.Table.UpdateById | src/lib/biometric_storage.c:645-696 | every row keeps its place, id, UUID and data, every row but the one with the id keeps all of its columns, and after a successful update that row carries the given ones |
| StoreRoundTrip.RoundTrip | src/lib/biometric_storage.c:325-575 | a canonical list of any users, the uid -1 included, inserted into an empty table is read back as the same list with the new ids, in whatever order SQLite arranges ties |
| StoreRoundTrip.OneArrangement | src/lib/biometric_storage.c:359-361 | strictly sorted rows have one sorted arrangement |
| FeatureClean.CleanIsExact | src/lib/biometric_storage.c:577-643 | kept and cleaned rows make up the table, the cleaned range is empty, and queries on disjoint ranges have the answers they had |
| FeatureClean.CleanAll | src/biometric-authenticationd.c:1083-1116 | for every row: with the last DELETE it is gone if and only if its index and uid are in the range of the request, whatever the devices did; without it, if besides the clean of its device was reached and succeeded; the reply is 0 if and only if everything succeeded |
| IndexAllocator.GetEmptyIndex | src/lib/biometric_common.c:1364-1408 | the result is that of the scan over what the query delivers; if it delivers all, for any user but -1, it is the least index from the start without a visible row, or 0 if there is no used one; with an upper bound it is -1 unless a used index within the bound follows |
| IndexAllocator.ScanList | src/lib/biometric_common.c:1381-1407 | the loop computes the scan, breaking off at the first index above its counter |
| IndexAllocator.EmptyIndexIs | src/lib/biometric_common.c:1381-1407 | on an increasing list the scan finds the least free index; with an upper bound it gives -1 exactly when the list is a run from the start |
| IndexAllocator.QueryShowsUsed | src/lib/biometric_common.c:1371-1377 | for any user but -1, any start and any bound, the query lists exactly the indices within the bounds that have visible rows, in increasing order; a bound below the start becomes the start |
| IndexAllocator.CutShort | src/lib/biometric_common.c:1381-1407 | the index that the scan gives on the first entries of a list is in the list if and only if they are fewer than the least free index |
| IndexAllocator.ChoiceIsFree | src/lib/biometric_common.c:1364-1408 | for any user but -1 and any first rows of an answer, the chosen index is used if and only if their list is shorter than the least unused index |
| IndexAllocator.NobodysChoice | src/lib/biometric_common.c:1364-1408 | for the uid -1 and any first rows of an answer without lower uids, the chosen index is used if and only if their list ends before the own least unused index, or the scan runs past an unbroken run of own indices into those of others, meets no gap, and ends below that run |
| IndexAllocator.ChoiceTaken | src/lib/biometric_common.c:1364-1408 | the two conditions in one, for every uid |
| FeatureRename.Rename | src/lib/biometric_common.c:1918-1964 | for every uid and whatever part of the query is delivered, exactly the samples read whose UPDATE succeeds are updated, in the order of the list, the result counts the others, and no other row changes; without a stale merge, and so for every uid but -1, only names change, 0 means that all shown samples of the feature were renamed, and the rename is complete if and only if it is 0 and all samples were shown |
| FeatureRename.RenameShows | src/lib/biometric_common.c:1918-1964 | after a complete rename a query lists the feature if and only if it did before, under the new name and with the same samples; with one old name and different numbers the entries differ in the name only |
| DriverIds.GetEmptyDriverId | src/lib/biometric_common.c:1513-1537 | the scan of the flags gives the least free id |
| DriverIds.LeastFreeIsLow | src/lib/biometric_common.c:1525-1536 | with n drivers it is at most 100 + n |
| DriverIds.LoadDrivers | src/lib/biometric_common.c:303-451 | up to 923 drivers get different ids that index the lock array, whichever of them fail to load: exactly one for every driver that loads, from 100 upwards |
| DriverIds.TooManyDrivers | src/lib/biometric_common.c:1525-1536 | the bounds 923 for the lock array and 924 for the flags are sharp |
| Migration.Database.Upgrade | src/lib/biometric_storage.c:983-1093 | what the statements leave behind for every combination of failures; the result is 0 if and only if every statement but the first and the last succeeds, and no transaction stays open unless the commit fails |
| Migration.Database.CreateFormat | src/lib/biometric_storage.c:1123-1176 | the table of formats is created if missing and gets the row 1.1.0 |
| Migration.AllOrNothing | src/lib/biometric_storage.c:983-1093 | the old or the upgraded tables are left, and nothing in between, exactly under the stated failures |
| Migration.SuccessfulUpgrade | src/lib/biometric_storage.c:983-1093 | without a fault every old row is there once, with its id, fields and UUID, the old table is kept, and the format is 1.1.0 |
| Migration.LeftBehind | src/lib/biometric_storage.c:983-1093 | without a transaction, what every row, the old table and the table of formats are after any combination of failures |
| Migration.CopiesComplete | src/lib/biometric_storage.c:1052-1081 | the loop over the users sets every UUID exactly when every user was delivered |
| Migration.CutShortLosesUser | src/lib/biometric_storage.c:1052-1081 | a SELECT that stops after one of two users is committed and leaves the other's row without UUID |
| Migration.MigratedIsShown | src/lib/biometric_storage.c:1052-1066 | in every answer of the query for everything on the upgraded table, the pass lists the sample of a migrated row with an index of at least 0 if and only if its uid is not -1, or the UUID of -1 is empty, or such a row of a lower uid exists; and in the entry of its own feature unless a stale merge is due |
| Migration.CheckFormat | src/lib/biometric_storage.c:698-787 | which format leads to an upgrade, to 0 and to a refusal, and with which result; a check that reads 1.1.0 gives 0 |
| Migration.SecondCheck | src/lib/biometric_storage.c:698-787 | upgraded tables have the format 1.1.0, and a check of them changes nothing, whatever fails |
| DaemonIndices.NoCollisions | src/biometric-authenticationd.c:494-507 | in every run of automatic enrolments that choose well, renames and cleans, for every uid, no two visible rows share user, type, driver and index |
| DaemonIndices.StepKeepsInv | src/biometric-authenticationd.c:447-526 | every event, with the index computed from what the query delivers, keeps the locks, the reserved indices and the samples of pending renames intact; a rename for the uid -1 may move rows of others, but out of sight |
| DaemonIndices.WholeChoosesWell | src/lib/biometric_common.c:1374-1377 | the list of a whole answer for any uid but -1 chooses well |
| DaemonIndices.ChoiceDecides | src/lib/biometric_common.c:1364-1408 | after an automatic enrolment, for every uid and from whatever part of the query was delivered, the table is free of collisions if and only if the list does not lead to a used index in the sense of ChoiceTaken |
| DaemonIndices.CutShortCollides | src/lib/biometric_common.c:1374-1398 | an enrolment whose query delivers nothing collides whenever the index 0 is used |
| DaemonNobody.NobodyCollides | src/biometric-authenticationd.c:499-505 | a run of four automatic enrolments from an empty table, three of them for the uid -1 and all with whole lists, ends with two visible rows of one feature |
| Daemon.LocksStayHeld | src/biometric-authenticationd.c:494-507 | in every step a handler between its lock and its unlock is the one that the lock of its driver names |
| Daemon.NewRowIsInserted | src/drivers/community-multidevice/close.c:148-163 | the row that an enrolment adds is what the insertion of its one-sample list writes, for every uid |
| DaemonTable.OthersKeepTable | src/biometric-authenticationd.c:494-507 | only a stored template, a DELETE and an UPDATE of a name that succeed change the table |
| DaemonTable.CleanedByRequest | src/biometric-authenticationd.c:1023-1116 | for every row, a successful clean removes it if and only if its index and uid are in the range of the request and, for one device, its type and driver are those of the device |
| DaemonTable.RenamedByRequest | src/lib/biometric_common.c:1929-1944 | an UPDATE of a rename gives the row of its sample the user, device, index and name of the request, and changes no other row |
| DaemonTable.NamesReadByRequest | src/lib/biometric_common.c:1918-1932 | the samples that a rename updates are those of the entries of its user and index in the list of its query |
| DaemonTable.AllocatedByRequest | src/biometric-authenticationd.c:499-505 | an automatic enrolment scans the list of the query for its user and device |
| DaemonTable.EnrolledByRequest | src/drivers/community-multidevice/close.c:148-163 | a stored template is one new row with the next id, of the user, device and index of the enrolment |
| DaemonTable.NamedIndexIsStored | src/biometric-authenticationd.c:499-506 | in every run, the row of an enrolment that names its index has this index |
| DaemonReplies.SuccessFollowsMatch | src/biometric-authenticationd.c:603-628 | in every run, a success reply of a verification or identification follows a reported match on the device after the handler opened it |
| DaemonReplies.StepKeepsInv | src/lib/biometric_common.c:647-681 | every event keeps the history of the shown result: it is that of the last write, a match only if a match callback wrote it, and from its opening to its unlock only the handler itself writes |
| DaemonReplies.OwnMatchDecides | src/biometric-authenticationd.c:608-615 | in every run, the match behind a success reply, the last write before it, is the handler's own if and only if no other handler wrote to the device between its unlock and its answer |
| DaemonReplies.MatchOfAnother | src/biometric-authenticationd.c:608-615 | a run of twelve events from the start in which a verification or identification without a match of its own answers a success, the latter with the uid that it was asked for |
| DaemonReplies.IdentifiedUid | src/biometric-authenticationd.c:717-738 | in every run, the uid with a success reply to an identification is the one of the last match that the handler itself reported, the one it was asked for if it reported none, and -1 exactly in place of these if it could not open the device, was stopped or timed out |
| DaemonAnswers.LastWriteDecides | src/biometric-authenticationd.c:611-626 | in every run, the last write to the device before an answer decides it: a verification or identification is a success or without a match as a match callback of the same kind said, and an error if anything else came last; a rename is a success if and only if a completed rename came last, an enrolment or a clean if and only if a write of a success did |
| DaemonAnswers.StepKeepsAnswers | src/lib/biometric_common.c:956-979 | every event keeps that the shown result tells the kind of the last write, and that a clean at work sees its own state |
| DaemonAnswers.RefusedIffHeld | src/biometric-authenticationd.c:603-606 | in every run, a handler is refused if and only if another one is between its lock and its unlock on the same device |
| DaemonProgress.PathsKept | src/biometric-authenticationd.c:1226-1241 | in every run, no rename opens or closes its device, no clean over all devices takes a lock, and only an enrolment without an index looks for one |
| DaemonProgress.CanAnswer | src/biometric-authenticationd.c:494-526 | in every run, every handler can come to its answer in at most seven steps of its own, whatever the others hold |

## Left out

- D-Bus marshalling, polkit checks, argument lists, logging, process and thread creation: they
  keep no invariant of their own.
- libfprint, libusb, the UUID files and SQLite itself: their outcomes are parameters; SQLite's
  queries and statements have relational specifications.
- Failures of memory allocation, and the width of C integers: lengths and indices are unbounded.
  In the cipher feedback loops the end of a segment would overflow for data near 2^31 bytes.
- Rows with a NULL UUID in the current format, which the query would copy without a test.
- bio_common_get_empty_sample_no: the community driver does not use it.
- internal_utf8_char_len and the printing of lists: no stored data depends on them.
- Enrolment with an explicit index can collide, since nothing tests it: `NoCollisions` is about
  automatic indices.
- That a handler's wait ends: several waits depend on a flag that some callbacks never set. It is
  proved only that every handler can come to its answer, and the events of a handler's body are a
  superset of what its loop allows.
- The states of a device and its notifications, except that some results are relative to its state.
- The replies of search, capture and list requests: the search can complete a request twice.
- The wait of a stop request: it writes no result, and the stop itself is a result of the handler
  that is stopped.
- The sequence of locks that one all-driver clean takes: in the transition system its cleans per
  device are handlers of their own, and only its last DELETE is without a lock.
- FeatureRename.RenameShows: for the uid -1, whose query shows other users too, answers with a stale
  merge are excluded; `FeatureRename.Rename` covers what the updates do then.
- IndexAllocator.NobodysChoice: answers that begin with a uid below -1 are excluded. Their lists show no
  row under an empty UUID, so that nothing in them tells what the uid -1 uses.
- DaemonIndices.ChoiceDecides: the same; `DaemonIndices.NoCollisions` admits such a choice if its
  index is not used.
- Base64.DecodeInto: the other texts are excluded; the code reads past their terminator.
- TemplatePipeline.DecodeTemplate: a stored text that decodes to more bytes than its sample number is
  excluded; the code does not test it and writes past its buffer.
- CfbInPlace.Encrypt: its schedule is static, and handler threads of different drivers share it, each
  under its own lock only. The result holds while no other thread encrypts with another key.
- CfbInPlace.Decrypt: the same for decryption.
- TemplatePipeline.EnrolledIsLoaded: it rests on the two, and so does every result about templates.
- The SysV shared memory of the device list and the per-device configuration files.
- Timing and side channels of the cipher and the strength of its fixed vector.
