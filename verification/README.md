# Verified models of the conversion engine's core

A Dafny model of six parts of the input method engine, each with the properties that hold the part
together. `dafny verify dfyconfig.toml` checks everything.

**AES-256, CBC and padding** (`Gf256`, `AesTables`, `AesSBox`, `Aes256Spec`, `AesChain`, `KeySchedule`, `Aes256`,
`Cbc`, `Aes256Cbc`, `Encryptor`). The block transforms, the key schedule and the chained modes rewrite byte
arrays in place; each is proved equal to a function on sequences, and these functions are proved to
be inverse to each other: MixColumns by the algebra of doubling in GF(2^8) (sections 4.2 and 5.1 to
5.3 of FIPS 197; the substitution table is the one defined there), CBC by induction over the blocks
(section 6.2 of NIST SP 800-38A), padding as in section 6.3 of RFC 5652. `AesChain` says what the
cipher computes, byte by byte through fourteen rounds. Decryption accepts a text if and only if it is the encryption of the
nonempty message it returns. `GF_p8_mul3` multiplies by 2, whatever its name says.

**Japanese numerals** (`NumberParser`, `NumberGroups`, `NumberGrammar`, `NumberNumerals`,
`NumberTokens`, `NumberPrinter`, `NumberVariations`, `NumberRoundTrip`, `NumberReading`,
`NumberMeaning`, `NumberNotations`). `ArabicToKanji` prints a
decimal string of at most 20 digits in several notations; the `Reduce` and `Interpret` functions
read a list of 64-bit numbers, one for each character. What they read is specified by a grammar
that does not mention them: pieces of falling places, coefficients of such pieces, numerals of
coefficients with falling scales. It is not true that every number of an accepted list counts: when
a place has been read, a run of digits at the next place that has too many places, or that a number
below 10000 follows, makes the reader give up the rest of the list. `NumberGrammar.Abandons` is that
condition. A list is read as v if and only if the numbers before such a run, or all of them if there
is none, spell a numeral of value v; so [1000, 5, 6, 7, 8] is read as 1000 and [2, 100, 3, 4, 20] as
200. The printer is specified by the numbers that the characters of each notation stand for. Every
notation is read back as exactly the printed value, or rejected, and the condition is exact: the
value must fit in 64 bits, and 大字 must not contain 阡 or 萬, which the character table does not
know, nor 壱百 or 壱拾, which the readers refuse. The text of an accepted notation normalizes to the
input without its leading zeros. `NumberNotations` lists what is offered for every number, in
order and character by character; 大字 that the readers refuse stands for the number by a tally of
its own. A decimal string of any length, in half or full width, is read as its value.

**IPC client** (`ClientProtocol`, `Client`). The client of the conversion server in its non-Apple
release build, with a factory and a launcher. Every answer of the server, the launcher and the
system is arbitrary and is recorded in a ghost log. The contracts say which events each operation
adds and what it leaves: connections, sessions, restarts of outdated servers, the journal of
consumed inputs and its replay after a crash. `Client.Client.Run` states what holds after any
sequence of operations: among other things that an input is recorded only when it has just been
answered, and that the journal is dropped only at a context boundary, when it is full, or when a
second trial in a new session has failed.

**CharChunk** (`PendingRules`, `CharChunkSpec`, `CharChunkText`, `CharChunk`, `CharChunkRuns`). A composing unit with
a cached length. The conversion table, the transliterators and the handling of special keys are
given functions. `CharChunkRuns.Run` is about any operations on any chunks, whatever the table
holds: contents and lengths are those of a run without any cache. What ends the loop of `AddInput`
and keeps every keystroke does depend on the table; it is written down as
`CharChunkSpec.TableContract`. `CharChunkText` says what the user sees: the conversion grows by what
the rules of the successive look-ups gave, and the last of them leaves what is pending. The bounded search for pending rules succeeds only with exactly the
keys that can be reached, which are closed.

**RecursiveMutex** (`RecursiveMutex`). `lock` and `unlock` in small steps of any number of threads,
with relaxed reads and writes of the owner: the writes have one order, and a read may return any
write not older than one the thread has seen. Taking the inner mutex makes the writes before its
release visible. The model includes the debug checks as steps. Those of
the destructor read the owner as any read does: they are sure to hold if and only if the destroying
thread has seen the last release.

**Bytes and texts** (`Utf8Spec`, `Utf8`, `Sha1Padding`, `CodeGenStream`). The UTF-8 routines with the
exact set of code points that survive a round trip: the encoder uses five bytes up to 0x7FFFFFF,
although section 2 of RFC 2279 ends five-byte sequences at 0x3FFFFFF. The padding of SHA-1 messages
(section 5.1.1 of FIPS 180-4), block by block. The generator of C++ byte arrays, whose output does
not depend on how the bytes reach its buffer.

`Wrappers.dfy` holds two shared types, decimal numbers, and in `Hiding` the predicates `Peek` and
`Used`, which are always true; a definition under `forall i :: Peek(i) ==> ...` is the definition
itself, kept out of proofs that do not need it. Text is a sequence of characters except in `Utf8`, where it is bytes.

## Model

| member | source | states |
|---|---|---|
| Gf256.XtimeLinear | src/base/unverified_aes256.cc:100-103 | doubling in GF(2^8) distributes over exclusive or |
| Gf256.MixIsMatrixRow | src/base/unverified_aes256.cc:105-118 | the mixing formula is the row 2, 3, 1, 1 of the matrix of FIPS 197 section 5.1.3, with general field multiplication |
| Gf256.Coefficients | src/base/unverified_aes256.cc:120-141 | the multiples built from doublings are those by 9, 11, 13 and 14 |
| Gf256.InvMixIsMixCubed | src/base/unverified_aes256.cc:120-141 | the inverse mixing is the forward mixing applied three times |
| Gf256.InvMixCancelsMix | src/base/unverified_aes256.cc:105-141 | inverse mixing undoes mixing on every column |
| Gf256.MixCancelsInvMix | src/base/unverified_aes256.cc:105-141 | and the other way round |
| AesTables.InvSBoxCancelsSBox | src/base/unverified_aes256.cc:43-89 | the inverse substitution table undoes the substitution table on every byte |
| AesTables.SBoxCancelsInvSBox | src/base/unverified_aes256.cc:43-89 | and the other way round |
| AesSBox.SBoxIsAffineReciprocal | src/base/unverified_aes256.cc:43-65 | every entry of the table is the affine map of FIPS 197 section 5.1.1 of the reciprocal in GF(2^8), or of 0 for 0 |
| AesSBox.ReciprocalUnique | src/base/unverified_aes256.cc:43-65 | there is only one such reciprocal |
| Aes256Spec.ShiftRowsRotates | src/base/unverified_aes256.cc:235-262 | row r of the state is rotated by r places |
| Aes256Spec.InvShiftRowsRotates | src/base/unverified_aes256.cc:264-291 | and rotated back by r places |
| Aes256Spec.RoundCancels | src/base/unverified_aes256.cc:293-319 | an inverse round undoes a round with the same key |
| Aes256Spec.CipherInverse | src/base/unverified_aes256.cc:293-319 | for every schedule and block the inverse cipher undoes the cipher and the cipher the inverse cipher, although the round loops run in opposite orders |
| AesChain.CipherChain | src/base/unverified_aes256.cc:293-304 | the cipher is the end of a chain of fifteen blocks: key bytes 0 to 15, thirteen rounds given byte by byte with the rows 2 3 1 1 over the shifted substituted bytes and the key of the round, and a last one without the matrix and with key bytes 224 to 239 |
| AesChain.InvCipherChain | src/base/unverified_aes256.cc:306-318 | the same for the inverse cipher, from key bytes 224 to 239 down to 0 to 15, with the rows 14 11 13 9 |
| KeySchedule.RconIsShift | src/base/unverified_aes256.cc:181-209 | the shift that yields the round constant is right on every pass |
| KeySchedule.ExpansionExpands | src/base/unverified_aes256.cc:181-209 | the expansion begins with the key and satisfies the recurrence of FIPS 197 section 5.2 at every byte |
| KeySchedule.WordRecurrence | src/base/unverified_aes256.cc:181-209 | whatever satisfies it byte by byte satisfies it word by word, with RotWord, SubWord and Rcon as the standard has them for a key of eight words |
| KeySchedule.FillSchedule | src/base/unverified_aes256.cc:181-209 | the loops fill all 240 bytes of the array with the expansion, within bounds |
| KeySchedule.MakeKeySchedule | src/base/unverified_aes256.cc:181-209 | the array holds the expanded key |
| Aes256.AddRoundKey | src/base/unverified_aes256.cc:93-98 | the block in place is combined with the round key, and nothing else changes |
| Aes256.MixColumnsImpl | src/base/unverified_aes256.cc:105-118 | a column in place becomes the mixed column |
| Aes256.InvMixColumnsImpl | src/base/unverified_aes256.cc:120-141 | a column in place becomes the inversely mixed column |
| Aes256.SubBytesInPlace | src/base/unverified_aes256.cc:211-215 | every byte of the block is substituted in place |
| Aes256.InvSubBytesInPlace | src/base/unverified_aes256.cc:217-221 | every byte of the block is substituted back in place |
| Aes256.MixColumnsInPlace | src/base/unverified_aes256.cc:223-227 | all four columns are mixed in place |
| Aes256.InvMixColumnsInPlace | src/base/unverified_aes256.cc:229-233 | all four columns are inversely mixed in place |
| Aes256.ShiftRowsInPlace | src/base/unverified_aes256.cc:235-262 | the swaps in place rotate the rows |
| Aes256.InvShiftRowsInPlace | src/base/unverified_aes256.cc:264-291 | the swaps in place rotate the rows back |
| Aes256.TransformECB | src/base/unverified_aes256.cc:293-305 | the block in place becomes its encipherment under the schedule |
| Aes256.InverseTransformECB | src/base/unverified_aes256.cc:307-319 | the block in place becomes its decipherment, with the round keys in descending order |
| Cbc.DecryptUndoesEncrypt | src/base/unverified_aes256.cc:143-179 | chained decryption undoes chained encryption, for any inverse block functions and any number of blocks |
| Cbc.EncryptUndoesDecrypt | src/base/unverified_aes256.cc:143-179 | and the other way round |
| Cbc.EncryptedBlock | src/base/unverified_aes256.cc:143-158 | every block is enciphered after the ciphertext block before it, or the vector, is added |
| Cbc.DecryptedBlock | src/base/unverified_aes256.cc:160-179 | every block is deciphered and the ciphertext block before it, or the vector, is added |
| Aes256Cbc.BlocksInverse | src/base/unverified_aes256.cc:143-179 | the block functions of one key are inverse to each other |
| Aes256Cbc.TransformCBC | src/base/unverified_aes256.cc:143-159 | the blocks in place become the chained encryption, and what follows them stays |
| Aes256Cbc.InverseTransformCBC | src/base/unverified_aes256.cc:161-179 | the blocks in place become the chained decryption, although each ciphertext block is overwritten before the next needs it |
| Encryptor.GetEncryptedSize | src/base/encryptor.cc:116-122 | the padded size is the next multiple of the block size above the size, so 1 to 16 bytes are added |
| Encryptor.PaddingBytes | src/base/encryptor.cc:195-203 | 1 to 16 bytes fill the message up to whole blocks, and each of them is their number |
| Encryptor.UnpadUndoesPad | src/base/encryptor.cc:183-257 | no check of the unpadding ever rejects the padding of a nonempty message |
| Encryptor.PadUndoesUnpad | src/base/encryptor.cc:212-257 | whatever unpadding accepts is the padding of the nonempty message it returns |
| Encryptor.RoundTrip | src/base/encryptor.cc:155-257 | decryption returns every nonempty message that was encrypted |
| Encryptor.AcceptsExactlyEncryptions | src/base/encryptor.cc:169-257 | decryption yields a message if and only if the input is the encryption of that nonempty message |
| Encryptor.EncryptArray | src/base/encryptor.cc:183-210 | the error cases, and the padded and encrypted bytes in place |
| Encryptor.DecryptArray | src/base/encryptor.cc:212-257 | succeeds exactly where decryption is defined; a failed call leaves the size and, once deciphered, the deciphered bytes |
| Encryptor.EncryptString | src/base/encryptor.cc:155-167 | the string becomes its encryption; with an unavailable key a nonempty string is left padded with NUL |
| Encryptor.DecryptString | src/base/encryptor.cc:169-181 | the string becomes the decrypted message, or the call fails |
| NumberParser.AddAndCheckOverflow | src/base/number_util.cc:537-545 | the check tells exactly whether the 64-bit sum wrapped |
| NumberParser.MultiplyAndCheckOverflow | src/base/number_util.cc:549-557 | the check tells exactly whether the 64-bit product wrapped |
| NumberParser.ReduceLeadingNumbersAsBase10System | src/base/number_util.cc:614-628 | the value of the longest run of digits, or failure exactly if it needs more than 64 bits |
| NumberParser.InterpretNumbersAsBase10System | src/base/number_util.cc:635-642 | the value of a list of digits; fails exactly if some number is no digit or the value overflows |
| NumberParser.ReduceOnesDigit | src/base/number_util.cc:646-654 | reads one digit below ten, or nothing |
| NumberParser.ReduceDigitsHelper | src/base/number_util.cc:674-725 | reads one place, with the position after each kind of failure |
| NumberParser.PlaceBound | src/base/number_util.cc:674-725 | what is read at a place advances, and is at most nine times the base unless the list breaks off there |
| NumberParser.ReduceNumberLessThan10000 | src/base/number_util.cc:750-777 | the four attempts in turn, and the check of what follows |
| NumberParser.CoefficientBound | src/base/number_util.cc:750-777 | for every list of tokens a successful read gives a number below 10000, advances and stops at a scale or the end |
| NumberGroups.InterpretNumbersInJapaneseWay | src/base/number_util.cc:783-808 | the loop ends, and returns the sum of the groups exactly if they can be read, their scales descend and the exact sum fits in 64 bits |
| NumberGroups.AcceptedIsExactSum | src/base/number_util.cc:783-808 | an accepted value is a sum, never wrapped, of coefficients below 10000 times strictly decreasing scales from the list, all at least 10000 but for a final 1 |
| NumberGrammar.PiecesAreRead | src/base/number_util.cc:674-746 | pieces of falling places up to a break are read, all of them, and their values add up to the reading |
| NumberGrammar.ReadIsPieces | src/base/number_util.cc:674-746 | whatever is read is the sum of such pieces, up to where reading stopped or a run was given up |
| NumberGrammar.AcceptsExactlyCoefficients | src/base/number_util.cc:748-783 | a coefficient is accepted with nothing given up exactly where the grammar spells one |
| NumberGrammar.EveryTokenCounts | src/base/number_util.cc:697-783 | every number of an accepted coefficient is in a piece, and the pieces add up to it, if and only if no run fails at the hundreds or tens after an earlier place was read |
| NumberGrammar.AbandonedIsCut | src/base/number_util.cc:697-703 | where a run is given up, the reading is that of the list cut off before the run, whose first digit is not a zero |
| NumberNumerals.AcceptsExactlyNumerals | src/base/number_util.cc:785-808 | a list is read as v if and only if the part of it that counts spells a numeral of value v with falling scales |
| NumberNumerals.OnlyKeptCounts | src/base/number_util.cc:697-808 | a list has the value, or the rejection, of the part of it before the run that is given up |
| NumberNumerals.EveryNumberCounts | src/base/number_util.cc:697-808 | every number of an accepted list counts if and only if no run is given up |
| NumberNumerals.AbandonedTail | src/base/number_util.cc:697-703 | [1000, 5, 6, 7, 8] is read as 1000: the run has too many places for the hundreds |
| NumberNumerals.AbandonedRun | src/base/number_util.cc:697-703 | [2, 100, 3, 4, 20] is read as 200: a number below 10000 follows the run |
| NumberGroups.NormalizeNumbersHelper | src/base/number_util.cc:812-824 | plain digits are read in base ten and anything else in the Japanese way; the empty list fails |
| NumberTokens.ReadsKanjiQuad | src/base/number_util.cc:674-777 | the tokens of up to four digits in any kanji notation are read back as their value, or refused exactly for a 1 before 百 or 拾 in 大字 |
| NumberTokens.ReadsArabicQuad | src/base/number_util.cc:674-777 | the digits of one rank are read back as their value |
| NumberTokens.ReadsNumber | src/base/number_util.cc:783-808 | the tokens of all ranks are read back as the value, if it fits and every rank is accepted |
| NumberTokens.PrintedNormalizes | src/base/number_util.cc:783-824 | for every number of at most five ranks and every notation, the readers return exactly the printed value or nothing |
| NumberPrinter.TableUndoesSpelling | src/data/preedit/kanjinumber-arabicnumber.tsv:1-44 | every character the printer uses is read back by the character table, but for 阡 and 萬 |
| NumberPrinter.RanksValue | src/base/number_util.cc:229-243 | the value of a decimal string is the value of its ranks of four digits and of what is above them |
| NumberPrinter.PrintSegment | src/base/number_util.cc:271-295 | the loop over the digits of a rank spells the tokens of the rank |
| NumberPrinter.PrintNumber | src/base/number_util.cc:267-298 | the loop over the ranks spells the tokens of the number |
| NumberPrinter.Segment | src/base/number_util.cc:237-243 | the segments are the ranks of the number, lowest first |
| NumberVariations.ReplacingPrintsTwenty | src/base/number_util.cc:305-310 | the text contains 弐拾 exactly if some tens digit is 2, and replacing it gives the notation with 廿 |
| NumberVariations.ArabicToKanji | src/base/number_util.cc:201-323 | succeeds exactly for strings of zeros and of at most 20 digits, and appends the notations in order; otherwise appends nothing |
| NumberNotations.NotationsAreOffered | src/base/number_util.cc:183-323 | what is offered for a nonzero number, in order: both widths of digits with scales for more than four digits, the kanji form, 大字, 大字 with 廿 if a tens digit is 2, and a single character for ten and thousand within one rank; each with its description, in its own characters and manner, standing for the number |
| NumberNotations.PrintedMeans | src/base/number_util.cc:246-300 | every printed text uses only the characters of its style, has no leading zeros in a rank, no 一 before a base in ordinary kanji and a digit before every base in 大字, and stands for the number |
| NumberNotations.ZeroIsOffered | src/base/number_util.cc:212-221 | for zeros only 零 is offered, as 大字 |
| NumberRoundTrip.NormalizeNumbers | src/base/number_util.cc:827-909 | the kanji and the Arabic text, with or without leading zeros; on failure the kanji text of the characters read so far and no Arabic text |
| NumberReading.DecimalsAreRead | src/base/number_util.cc:637-646 | a decimal string of any length, in both widths, is read as its value if that is below 2 to the 64 and rejected otherwise |
| NumberReading.DecimalsNormalizeToThemselves | src/base/number_util.cc:886-909 | without trimming, the Arabic text of such a string is that string |
| NumberReading.OthersAreNumerals | src/base/number_util.cc:812-824 | a list with a number from 10 up is read as v if and only if the part of it that counts spells a numeral of value v |
| NumberReading.KanjiText | src/base/number_util.cc:861-872 | in the kanji text, digits of both widths become kanji digits and everything else stays |
| NumberRoundTrip.PrintedTextReadsBack | src/base/number_util.cc:201-323 | a printed text reads back as its value exactly if the notation is readable and the value fits in 64 bits, and is rejected otherwise |
| NumberRoundTrip.OutputsReadBack | src/base/number_util.cc:201-323 | the same for everything that is offered for any decimal string, the extra notations included |
| NumberRoundTrip.OldTenIsRefused | src/base/number_util.cc:705-711 | 壱拾, as 大字 writes ten, cannot be read |
| NumberRoundTrip.OldThousandIsUnknown | src/base/number_util.cc:921-926 | 弐阡 cannot be read, for 阡 is not in the character table |
| NumberRoundTrip.OutputsNormalizeToInput | src/base/number_util.cc:827-909 | the Arabic text of a readable notation is the input without leading zeros |
| ClientProtocol.DisciplinedThroughout | src/client/client.cc:443-494 | in a disciplined history, each input at its time names the session granted last |
| ClientProtocol.GroundedThroughout | src/client/client.cc:260-424 | in such a history every recorded input was answered by the call just before, and every clearing of the journal comes at a boundary, at a full journal, or after a second trial that failed in a newly granted session |
| ClientProtocol.FailsTwice | src/client/client.cc:393-421 | a lost first trial, a session granted anew and a failed second trial are what the last of these reasons asks for |
| ClientProtocol.RestartStartsOnce | src/client/client.cc:838-882 | a restart starts the server at most once, and exactly once if it succeeds |
| ClientProtocol.CheckOutcome | src/client/client.cc:819-892 | a version check succeeds if and only if its last call was answered with the client's protocol by a server that is not older, restarts at most once, and ends in the fine status only if it began there and did not restart |
| ClientProtocol.CheckByFirstAnswer | src/client/client.cc:819-892 | what the check decides after each outcome of the first call, with the statuses and the protocol version written out |
| ClientProtocol.CheckByRestart | src/client/client.cc:838-892 | what it ends with after a restart, by the outcome of the second call |
| ClientProtocol.JournalPush | src/client/client.cc:260-284 | recording an input keeps the journal equal to the oldest consumed inputs |
| ClientProtocol.JournalOfCommand | src/client/client.cc:260-307 | the journal after a command: cleared by a consumed key that commits text and by a failed second trial, and otherwise longer by a consumed input while it holds fewer than 512 |
| ClientProtocol.ClearedAtCommits | src/client/client.cc:280-283 | the journal is cleared directly after an input that commits no text only when it is full |
| ClientProtocol.ReplayMore | src/client/client.cc:243-258 | one more answered input prolongs a replay, an unanswered one ends it |
| ClientProtocol.FatalCommand | src/client/client.cc:370-424 | in the fatal status a command contacts nobody and changes nothing |
| Client.Client.Call | src/client/client.cc:709-797 | a dead client does not call; otherwise one exchange decides the result, the status and the versions |
| Client.Client.CallAndCheckVersion | src/client/client.cc:695-707 | as a call, but another protocol makes it a version mismatch |
| Client.Client.CallCommand | src/client/client.cc:687-693 | one input in the open session |
| Client.Client.Shutdown | src/client/client.cc:546-553 | the command's result is ignored, and the process of the last connection is awaited |
| Client.Client.EnsureConnection | src/client/client.cc:138-187 | true only in a connected status, false only in the fatal one, with exactly the starts and reports in the log |
| Client.Client.RestartServer | src/client/client.cc:849-881 | the exact sequence of shutdown, termination, waiting and start, and the status each failure leaves |
| Client.Client.CheckVersionOrRestartServerInternal | src/client/client.cc:819-892 | at most two attempts around at most one restart, each step decided by the versions seen; the end of the loop is never reached |
| Client.Client.CheckVersionOrRestartServer | src/client/client.cc:355-368 | fails only in the fatal status |
| Client.Client.CreateNewSession | src/client/client.cc:443-475 | a session is open only if a server that is not outdated granted it, and else none is |
| Client.Client.EnsureSession | src/client/client.cc:189-218 | true only in the fine status, with a session just granted or still open; false only without a session or in the fatal status |
| Client.Client.DeleteOpenSession | src/client/client.cc:477-494 | the session is forgotten only if the server answered |
| Client.Client.ResetHistory | src/client/client.cc:287-307 | the journal is emptied |
| Client.Client.PushHistory | src/client/client.cc:260-284 | consumed inputs are recorded up to the capacity, and a committed key clears the journal |
| Client.Client.PlaybackHistory | src/client/client.cc:243-258 | all or nothing: a journal below its capacity is sent in order in the new session, complete up to the first failure; a full one is dropped unsent |
| Client.Client.Retry | src/client/client.cc:393-420 | the second trial: a new session, the replay, the input once more, and an empty journal if that fails |
| Client.Client.EnsureCallCommand | src/client/client.cc:370-424 | the whole course of a command: when it is repeated, what is replayed, which session it names, what is recorded, and what each failure leaves |
| Client.Client.PingServer | src/client/client.cc:647-685 | contacts the server in every status and changes nothing |
| Client.Client.Reset | src/client/client.cc:894-898 | back to the unknown status, with the journal and the session kept |
| Client.Client.Run | src/client/client.cc:138-898 | after any operations in any surroundings the journal holds the consumed inputs since it was cleared, at most 512, recorded inputs were answered just before, it was cleared only for a reason, every input named its session, and a fatal client stayed fatal and called nobody unless it was reset or checked versions |
| PendingRules.GetFromPending | src/composer/char_chunk.cc:80-111 | added keys can be reached; success closes them; failure comes with a chain that ends at a result or is too long |
| PendingRules.ClosedIsReachable | src/composer/char_chunk.cc:80-111 | a closed set that holds the key and only what it reaches is everything it reaches |
| PendingRules.FindLoop | src/composer/char_chunk.cc:245-250 | from the empty set, success yields exactly the reachable keys, all of them closed and without results |
| CharChunkSpec.Resolve | src/composer/char_chunk.cc:594-608 | the transliterator really used is never LOCAL |
| CharChunkSpec.CombineUndoesSplit | src/composer/char_chunk.cc:284-592 | wherever a partitioning transliterator divides a chunk, combining the parts restores raw, conversion and pending |
| CharChunkSpec.PartsShowTheirTexts | src/composer/char_chunk.cc:556-592 | each part shows its side of the raw and of the converted text |
| CharChunkSpec.StepKeepsKeys | src/composer/char_chunk.cc:302-418 | one step keeps a piece of the input or drops a leading special key, stays in bounds, and makes progress if there is more to do |
| CharChunkSpec.AddAllKeepsKeys | src/composer/char_chunk.cc:302-427 | no keystroke is lost: raw grows by the input in order, less special keys and the rest, unless the chunk is to disappear |
| CharChunkSpec.ConvertedKeepsKeys | src/composer/char_chunk.cc:429-505 | the typed keys of an input go to the chunk all together or are left as they were |
| CharChunkText.AddAllText | src/composer/char_chunk.cc:302-427 | the conversion grows by the results of the rules that apply and by the characters no rule matches, in order; a key that matches but may grow stays pending with its result as ambiguous; the beginning of a rule is added to the pending string; the pieces hold every keystroke |
| CharChunkText.StepShowsVisit | src/composer/char_chunk.cc:302-418 | the texts, the attributes and the loop flag after one step, by what the look-up found |
| CharChunkText.DoubledConsonant | src/composer/char_chunk.cc:382-388 | with the usual rules the keys tta give った |
| CharChunkText.ConvertedTexts | src/composer/char_chunk.cc:429-505 | the texts of the chunk and of the input after an input that has a conversion |
| CharChunk.CharChunk.constructor | src/composer/char_chunk.cc:114-119 | an empty chunk with nothing cached |
| CharChunk.CharChunk.Copy | src/composer/char_chunk.h:68-71 | a copy takes the valid cache along |
| CharChunk.CharChunk.Clear | src/composer/char_chunk.cc:126-132 | the strings are emptied, the attributes kept |
| CharChunk.CharChunk.SetRaw | src/composer/char_chunk.h:151-155 | the field is set and the cache dropped |
| CharChunk.CharChunk.SetConversion | src/composer/char_chunk.h:158-162 | the field is set and the cache dropped |
| CharChunk.CharChunk.SetPending | src/composer/char_chunk.h:165-169 | the field is set and the cache dropped |
| CharChunk.CharChunk.SetAmbiguous | src/composer/char_chunk.h:172-176 | the field is set and the cache dropped |
| CharChunk.CharChunk.SetTransliterator | src/composer/char_chunk.cc:540-549 | LOCAL is ignored |
| CharChunk.CharChunk.SetAttributes | src/composer/char_chunk.cc:551-554 | the field is set and the cache dropped |
| CharChunk.CharChunk.GetLength | src/composer/char_chunk.cc:134-146 | the length computed anew, from the cache or not |
| CharChunk.CharChunk.Combine | src/composer/char_chunk.cc:284-300 | the fields of both chunks in order, with the ambiguous string only if the left has one |
| CharChunk.CharChunk.SplitChunk | src/composer/char_chunk.cc:556-592 | fails exactly outside the text; otherwise both parts, each with a valid cache |
| CharChunk.CharChunk.SplitAndCombine | src/composer/char_chunk.cc:284-592 | splitting and combining again restores raw, conversion and pending |
| CharChunk.CharChunk.AddInputInternal | src/composer/char_chunk.cc:302-418 | the chunk, the loop flag and the rest are those of one step, if its look-ups stay within the input |
| CharChunk.CharChunk.AddInputSteps | src/composer/char_chunk.cc:420-427 | the same for any number of steps of the loop, whatever the table holds |
| CharChunkSpec.EnoughSteps | src/composer/char_chunk.cc:420-427 | under the table contract the loop is a number of such steps |
| CharChunk.CharChunk.AddInput | src/composer/char_chunk.cc:420-427 | the loop ends with all steps done |
| CharChunk.CharChunk.AddInputAndConvertedChar | src/composer/char_chunk.cc:429-505 | the chunk and the input after each of the cases |
| CharChunk.CharChunk.AddCompositionInput | src/composer/char_chunk.cc:527-538 | which of the three ways an input is taken, and its result |
| CharChunkRuns.Run | src/composer/char_chunk.cc:114-592 | under any sequence of operations on any number of chunks, and any table, no cached length is ever stale, and contents and reported lengths are those of the run without a cache |
| RecursiveMutex.StepKeepsInv | src/base/thread.h:356-387 | every step of every thread keeps the invariant |
| RecursiveMutex.RunIsSafe | src/base/thread.h:348-392 | in every interleaving of any number of threads: at most one inside, only the holder touches the depth, the depth is its number of calls, and every check of the two methods holds |
| RecursiveMutex.DestroyedSafelyExactlyIfSeen | src/base/thread.h:348-352 | a mutex that nobody uses is free, and the checks of its destructor hold for every write of the owner it may read if and only if its thread has seen the last release |
| RecursiveMutex.UnseenReleaseMisleads | src/base/thread.h:348-352 | a run after which a thread that has not seen it may read the id of an earlier owner |
| RecursiveMutex.ReleasedExactlyAtZero | src/base/thread.h:375-387 | the inner mutex is released exactly when an unlock leaves no call to match |
| RecursiveMutex.ReentryNeverWaits | src/base/thread.h:356-373 | a thread that owns the lock never waits for it |
| Utf8Spec.DecodeEncoded | src/base/util.cc:551-602 | what decoding makes of the encoding of any nonzero code point followed by any bytes |
| Utf8Spec.DecodesExactly | src/base/util.cc:398-486 | the decoder accepts exactly the sequences of one to six bytes that are not too long for their value, which is the sum of the payloads of the bytes at their powers of two |
| Utf8Spec.FiveBytesAreTooFew | src/base/util.cc:585-592 | the encoding of 0x4000000 cannot be decoded |
| Utf8Spec.DecodedIsEncoding | src/base/util.cc:398-486 | a decoded code point that round-trips consumed exactly its encoding; any other consumed more bytes than its encoding has |
| Utf8Spec.EncodeDecodedText | src/base/util.cc:368-383 | encoding the decoded text gives it back if and only if it is valid and every code point round-trips, that is neither NUL nor from 0x4000000 to 0x7FFFFFF |
| Utf8Spec.DecodeEncodedText | src/base/util.cc:368-383 | decoding the encoded code points gives them back if and only if every one round-trips |
| Utf8Spec.LastOfValid | src/base/util.cc:488-524 | on a valid text the last code point is found, and what is left is valid |
| Utf8Spec.BackwardsIsReverse | src/base/util.cc:80-97 | going backwards through a valid text gives the reverse of going forwards |
| Utf8.SplitFirstChar32 | src/base/util.cc:398-486 | the first code point and the rest, or zero and nothing; the 32-bit shifts lose nothing |
| Utf8.SplitLastChar32 | src/base/util.cc:488-524 | the last code point and what precedes it, or failure |
| Utf8.IsValidUtf8 | src/base/util.cc:526-536 | true exactly if the text is a sequence of code points |
| Utf8.CodepointToUtf8 | src/base/util.cc:551-602 | the bytes and the terminating zero in the buffer, and nothing else |
| Utf8.CodepointToUtf8Append | src/base/util.cc:544-549 | the encoding is appended |
| Utf8.Utf8ToUtf32 | src/base/util.cc:368-375 | the code points up to the first invalid place |
| Utf8.Utf32ToUtf8 | src/base/util.cc:377-383 | the encodings in order |
| Utf8.ThereAndBack | src/base/util.cc:368-383 | the round trip of a text, with its exact condition |
| Utf8.ConstChar32Iterator.Next | src/base/util.cc:62-78 | the first of the remaining code points is dropped |
| Utf8.ConstChar32ReverseIterator.Next | src/base/util.cc:80-97 | the last of the remaining code points is dropped |
| Utf8.VisitForward | src/base/util.cc:62-78 | the iterator visits the code points of the text |
| Utf8.VisitBackward | src/base/util.cc:80-97 | on a valid text the reverse iterator visits exactly their reverse |
| Sha1Padding.FewestZeros | src/base/unverified_sha1.cc:139-162 | no smaller number of zero bytes completes a block |
| Sha1Padding.LengthFieldHoldsLength | src/base/unverified_sha1.cc:164-168 | the last eight bytes are the number of bits in big-endian order, whenever it fits in 64 bits |
| Sha1Padding.PaddedBytes | src/base/unverified_sha1.cc:119-169 | byte by byte: the message, 0x80, and zeros up to the last eight bytes |
| Sha1Padding.LastEightBytes | src/base/unverified_sha1.cc:164-168 | these are the number of bits, the highest byte first |
| Sha1Padding.CountIsExact | src/base/unverified_sha1.cc:173-187 | the number of blocks is right if and only if the sum in it does not wrap |
| Sha1Padding.PaddedMessageIterator.FillNextMessage | src/base/unverified_sha1.cc:121-169 | the array holds the next 64 bytes of the padded message |
| Sha1Padding.MakeDigest | src/base/unverified_sha1.cc:194-239 | for any compression function the loop compresses the blocks of the padded message in order |
| Sha1Padding.DigestChain | src/base/unverified_sha1.cc:202-239 | the digest ends a chain of states in which every 64 bytes of the padded message are compressed once, in order |
| Sha1Padding.AllBlocksConcat | src/base/unverified_sha1.cc:194-239 | the blocks that are compressed are together the padded message |
| CodeGenStream.RenderConcat | src/base/codegen_bytearray_stream.cc:134-145 | bytes rendered in two parts read as if rendered at once |
| CodeGenStream.RenderedBytes | src/base/codegen_bytearray_stream.cc:133-145 | read six characters at a time, the text gives the bytes in hexadecimal, with a line break before every twentieth |
| CodeGenStream.DefinitionText | src/base/codegen_bytearray_stream.cc:60-87 | the definition of a variable with its fixed parts written out |
| CodeGenStream.StreamBuf.WriteBytes | src/base/codegen_bytearray_stream.cc:134-145 | each byte once and in order, twenty to a line, and counted |
| CodeGenStream.StreamBuf.Overflow | src/base/codegen_bytearray_stream.cc:113-131 | the buffer and then the byte are written; a closed buffer keeps what it has |
| CodeGenStream.StreamBuf.Sync | src/base/codegen_bytearray_stream.cc:90-95 | succeeds if and only if a variable is open and the stream is good; flushing changes neither the text nor the count that a reader will see |
| CodeGenStream.StreamBuf.Xsputn | src/base/codegen_bytearray_stream.cc:99-110 | the bytes follow what was there, buffered or not; what a closed buffer does with them |
| CodeGenStream.StreamBuf.OpenVarDef | src/base/codegen_bytearray_stream.cc:61-71 | the header, or failure; buffered bytes stay and count |
| CodeGenStream.StreamBuf.CloseVarDef | src/base/codegen_bytearray_stream.cc:74-87 | the rest of the bytes and the footer with their number, or failure |
| CodeGenStream.WriteVariable | src/base/codegen_bytearray_stream.cc:50-145 | for every way of writing the bytes and every capacity, the text is the definition of the variable with these bytes behind those left in the buffer, or the failure is reported |

## Left out

- Encryptor.GetEncryptedSize: sizes are unbounded; the wrap-around of a 64-bit size within 16 bytes of its limit is not modelled.
- Key derivation from a password, the protection of data by the operating system and the password manager are not modelled; a key is any 32 bytes with any 16-byte vector.
- Numbers with separators, wide digits, Roman and circled digits, other radixes and the suffix variant of `NormalizeNumbers` are left out; they would add easy members.
- NumberRoundTrip.NormalizeNumbers: characters, not UTF-8 bytes; the double array that holds the character table is replaced by the table.
- CodeGenStream.StreamBuf.Sputc: models the inherited put of one byte, which src/base/codegen_bytearray_stream.cc relies on but does not define.
- Client operations that send one command and copy fields of the answer (configuration, dictionary, synchronisation) are represented by `CallCommand`.
- The client's DEBUG, Windows and macOS branches, logging, dialogs, tool launching, timeouts and protobuf serialisation are left out; product versions are integers in their order.
- CharChunk.CharChunk.Assign: assignment between chunks of the same table only.
- Moving a chunk is left out: the defaulted move leaves the strings of the moved-from object unspecified and its cached length as it was, so that object must be cleared or assigned before its length is asked for.
- CharChunkRuns.Run: an addition stops before a look-up that would leave the input, which the source does not define.
- The setters of the client's preferences and request, which replace one field each, are left out.
- CharChunk.CharChunk.AddInput: takes as its precondition what the loader of conversion tables, which is not part of this model, has to guarantee: prefix look-ups within the key and no endless chain of rules that use no input.
- The texts that a chunk appends for display, and `GetExpandedResults` beyond its search, are left out.
- RecursiveMutex: the depth is unbounded, so 2^31 nested calls are not modelled; a write of the owner is placed last in the order of writes, the only place coherence leaves to a thread that has seen every write, which `RunIsSafe` states of the writing thread. Thread ids are nonzero and a thread unlocks only what it owns. The two methods are modelled as steps of threads rather than as methods of a class.
- Utf8.SplitFirstChar32: null output parameters are not modelled.
- Sha1Padding.PaddedMessageIterator.FillNextMessage: only for messages whose block count does not wrap; the compression function itself is a parameter.
- The generator's stream wrapper, which turns a failed call into the failure flag of the stream, is left out.
