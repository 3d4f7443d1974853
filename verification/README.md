# A verified model of parts of Mozkey

Mozkey is a Japanese input method. This project models those of its parts that are algorithms or protocols, in Dafny
4.11, and proves what they are for. `dafny verify dfyconfig.toml` checks all of it.

| files | what they model |
|---|---|
| `Gf256.dfy`, `AesTables.dfy`, `AesSpec.dfy`, `Aes256.dfy`, `AesExamples.dfy` | the AES-256 cipher and its chaining. `AesSpec` states FIPS 197 and NIST SP 800-38A as functions; `Aes256` has the program's loops over byte arrays, in place, proved equal to them; `AesExamples` has the example of FIPS 197, round by round |
| `Encryptor.dfy`, `EncryptorExamples.dfy` | padding, key derivation, encryption of buffers and strings |
| `Sha1Spec.dfy`, `Sha1.dfy`, `Sha1Examples.dfy` | SHA-1: FIPS 180-4 as functions, and the program's iterator and loops proved equal to them; the example of FIPS 180 for "abc", step by step |
| `NumberReader.dfy`, `NumberPrinter.dfy`, `NumberNormalizer.dfy`, `NumberRoundTrip.dfy`, `NumberMixed.dfy`, `NumberLoss.dfy`, `NumberExamples.dfy` | printing numbers in Japanese and reading them; `NumberMixed` has digits behind ranks, `NumberLoss` which numbers the reader leaves out, `NumberExamples` the greatest number in all styles |
| `Version.dfy`, `Client.dfy`, `ClientRecovery.dfy`, `ClientExamples.dfy` | the session protocol between a client and the conversion server; `ClientRecovery` has what its journal restores, `ClientExamples` has runs with a certain environment |
| `Utf8.dfy`, `Utf8Examples.dfy`, `Csv.dfy` | the UTF-8 codec with its iterators, and the in-place splitter of comma-separated values |
| `CompositionTable.dfy`, `CharChunk.dfy`, `CharChunkExamples.dfy` | one unit of a romaji composition and the rules it looks up |
| `RecursiveMutex.dfy` | the recursive mutex as steps of any number of threads |
| `CodeGen.dfy`, `CodeGenReader.dfy` | the buffered generator of byte arrays in C++ source text, and a reader of that text |
| `Wrappers.dfy` | an optional value |

What changes things step by step in the program is a method here, on arrays, class fields or sequences, and its
postcondition ties the new state to a function whose properties are proved as lemmas.

## How the surroundings are modelled

* The conversion server, the connection to it and the launcher answer as they like: `environment` is any sequence of
  choices, and the client takes them one after the other. What it does to the environment is a recorded trace, and the
  properties of the client are statements about that trace. Serialization succeeds, and there is a client factory and
  a launcher. The branch is the release build for systems other than macOS.
* The composition table is a finite map from rule inputs to rules; the trie walk is modelled on it as
  `src/base/container/trie.h` does it. `CharChunk` asks that every rule leaves a pending string on which no lookup
  falls short, since the program subtracts the two lengths without a check, and that following rules from pending
  string to pending string ends. `UsableMeansNeverShort` says what the first means for lookups. The rounds of a
  `CharChunk` are those of any sequence of inputs added to an empty one.
* The mutex is checked for owners read without any ordering: a thread may read any write that is not older than what it
  read or wrote itself. That the inner mutex hands over more than that is not used.
* Characters of numbers, rules and comma-separated values are characters; bytes of UTF-8 are numbers below 256.

## Where the program does not do what its text suggests

* `GF_p8_mul3` multiplies by two, not by three.
* The decryption refuses the encryption of an empty string, which the encryption refuses to make.
* The old Kanji style of numbers is not always read back: 壱 is refused in front of 百 and 拾, and 阡 and 萬 are not in
  the reader's table. `OldTextsComeBackWhenLegible` has the exact condition.
* The Kanji form of a text writes 〇 for an Arabic zero, which is not in the reader's table. `KanjiFormComesBack` has that as
  the exact condition, and `KanjiFormOfTen` an instance.
* The reader may leave numbers out of what it reads: 千一二十 is 1000. `NumbersAreLeftOut` has the exact condition: after
  the last big rank, 千 or 百 is followed by two digits or more, and these are 1000 or more after 千, 100 or more after
  百, or have a number from 10 to 9999 behind them. `FiveDigitsAreLeftOut` and `DigitsAndTenAreLeftOut` are instances.
* The UTF-8 encoder drops the code point zero and writes code points from 0x4000000 to 0x7FFFFFF in five bytes, which
  its decoder reads otherwise or not at all. `CodepointsComeBack` and `BytesComeBack` have the exact condition.
* An empty field at the end of a line of comma-separated values is lost after a quoted field. `LinesComeBack` has the
  exact condition. Text between a closing quote and the next comma is dropped; see `TextAfterQuotesIsDropped`.
* A lost session is rebuilt only if the loss shows in the answer to the input itself. If another message finds it, the
  next input goes to a new session without a replay, and the old journal is kept: the case `replayed == None` of
  `EnsureCallCommand`. `JournalOfNewSession` has exactly when the journal still holds the state of the session then;
  `NewSessionMayBeOutOfStep` is an instance where it does not.
* The answer to the request is not looked at, so a session may be used although it never got the request. `OpenSession`
  and `EnsureSession` have the exact condition, the outcome of that one message; `RequestMayBeLost` is an instance.
* Fatal is not the end for a version check: if the last server seen had an older protocol, or the client knows of none,
  `CheckVersionOrRestartServer` terminates it and starts another one even from the fatal status. It does so exactly
  then; `FatalIsNotTheEnd` is an instance.
* A rule whose ambiguous result is displayed but empty shows its pending string, and falling back fixes the empty
  result, not what was shown. `SnapshotIsOfDisplay` and `FallingBackFixesWhatWasShown` have the exact condition;
  `FallingBackToN` has an instance of both cases.
* A rule with an empty input keeps new chunks from using up what is typed. `NewChunksUseAllInputs` has that as the exact
  condition, given a character that no rule has.
* A backward split that fails for trailing bytes in excess returns the code point before them all the same; on other
  failures it returns zero. `TrailingInExcess` is an instance.
* Bytes written to the generator of byte arrays while no definition is open are kept for the next one if they fit its
  buffer, and otherwise go to the output at once, past those kept.

## Model

| member | source | states |
|---|---|---|
| `Gf256.DoublingReducesModuloTheAesPolynomial` | src/base/unverified_aes256.cc:100-103 | `GF_p8_mul3`, whatever its name says, multiplies by x in GF(2^8) modulo x^8 + x^4 + x^3 + x + 1 |
| `Gf256.ComposedProducts` | src/base/unverified_aes256.cc:126-134 | the chains of doublings and exclusive ors in `InvMixColumnsImpl` are the products by 9, 11, 13 and 14 |
| `Gf256.ColumnsInvert` | src/base/unverified_aes256.cc:105-141 | the matrices of MixColumns and InvMixColumns are inverse over GF(2^8), for every column |
| `AesTables.SBoxThenInverse` | src/base/unverified_aes256.cc:43-89 | for every byte the inverse table undoes the table |
| `AesTables.InverseThenSBox` | src/base/unverified_aes256.cc:43-89 | for every byte the table undoes the inverse table |
| `AesTables.SBoxIsAffineOfInverse` | src/base/unverified_aes256.cc:43-65 | every entry of the table is the affine transformation of the multiplicative inverse of its index, section 5.1.1 of FIPS 197 |
| `AesSpec.ShiftRowsRotates` | src/base/unverified_aes256.cc:235-262 | row r of the state is rotated by r, for every row and column |
| `AesSpec.ShiftRowsInvert` | src/base/unverified_aes256.cc:235-291 | the two row shifts undo each other |
| `AesSpec.MixColumnsInvert` | src/base/unverified_aes256.cc:223-233 | the two column mixings undo each other on every block |
| `AesSpec.AllRoundsInvert` | src/base/unverified_aes256.cc:293-319 | the decryption rounds undo the encryption rounds and the other way round, for any number of rounds and every schedule |
| `AesSpec.StateBeforeRounds` | src/base/unverified_aes256.cc:293-296 | byte i of the first state is byte i of the block plus byte i of the schedule |
| `AesSpec.StateAfterRound` | src/base/unverified_aes256.cc:297-301 | byte r + 4c after round n is row r of the matrix times the substituted bytes of the state before, taken from the columns c to c + 3, plus byte 16n + r + 4c of the schedule |
| `AesSpec.StateAfterLastRound` | src/base/unverified_aes256.cc:302-304 | byte r + 4c of the ciphertext is a substituted byte of the state before, from column c + r, plus byte 224 + r + 4c of the schedule |
| `AesSpec.CiphersInvert` | src/base/unverified_aes256.cc:293-319 | the two ciphers are mutual inverses, for every 240-byte schedule and every block |
| `AesExamples.KnownAnswer` | src/base/unverified_aes256.cc:181-319 | the example of appendix C.3 of FIPS 197, both ways, from the key expansion through all rounds |
| `AesSpec.CbcDecryptsEncrypted` | src/base/unverified_aes256.cc:143-179 | chained decryption undoes chained encryption, for every schedule, initial vector and number of blocks; section 6.2 of NIST SP 800-38A |
| `AesSpec.CbcEncryptsDecrypted` | src/base/unverified_aes256.cc:143-179 | and the other way round |
| `AesSpec.CipherBlocks` | src/base/unverified_aes256.cc:143-159 | block i of the ciphertext is the cipher of block i of the plaintext plus the ciphertext block before it, or the initial vector |
| `Aes256.MixColumnsImpl` | src/base/unverified_aes256.cc:105-118 | in place, four bytes become the product with the MixColumns matrix; nothing else changes |
| `Aes256.InvMixColumnsImpl` | src/base/unverified_aes256.cc:120-139 | the same with the inverse matrix |
| `Aes256.AddRoundKey` | src/base/unverified_aes256.cc:93-98 | in place, a block is added to a round key |
| `Aes256.SubBytes` | src/base/unverified_aes256.cc:211-215 | in place, a block is substituted byte by byte |
| `Aes256.InvSubBytes` | src/base/unverified_aes256.cc:217-221 | the same with the inverse table |
| `Aes256.MixColumns` | src/base/unverified_aes256.cc:223-227 | in place, all four columns of a block are mixed |
| `Aes256.InvMixColumns` | src/base/unverified_aes256.cc:229-233 | in place, all four columns of a block are unmixed |
| `Aes256.ShiftRows` | src/base/unverified_aes256.cc:235-262 | the byte moves of the program are the row shift of FIPS 197 |
| `Aes256.InvShiftRows` | src/base/unverified_aes256.cc:264-291 | the byte moves of the program are the inverse row shift |
| `Aes256.TransformECB` | src/base/unverified_aes256.cc:293-305 | the block becomes its encryption by Cipher, section 5.1 of FIPS 197, and nothing else changes |
| `Aes256.InverseTransformECB` | src/base/unverified_aes256.cc:307-319 | the block becomes its decryption by InvCipher, section 5.3 of FIPS 197 |
| `Aes256.MakeKeySchedule` | src/base/unverified_aes256.cc:181-209 | the schedule, bytes 0 to 239, becomes the key expansion for eight-word keys, section 5.2 of FIPS 197, for every key |
| `Aes256.TransformCBC` | src/base/unverified_aes256.cc:143-159 | the blocks become their chained encryption; the rest of the buffer stays |
| `Aes256.InverseTransformCBC` | src/base/unverified_aes256.cc:161-179 | the blocks become their chained decryption; the rest of the buffer stays |
| `Encryptor.EncryptedSizeIsNextMultiple` | src/base/encryptor.cc:116-122 | the encrypted size is the least multiple of 16 above the size |
| `Encryptor.PaddedBytes` | src/base/encryptor.cc:197-202 | the text, then the number of missing bytes as often as it says, byte by byte |
| `Encryptor.UnpadOfPad` | src/base/encryptor.cc:197-202 | unpadding a padded non-empty text gives it back; section 6.3 of RFC 5652 |
| `Encryptor.PadOfUnpad` | src/base/encryptor.cc:238-255 | whatever is unpadded was padded: no other padding is accepted |
| `Encryptor.DecryptedEncrypted` | src/base/encryptor.cc:155-257 | decryption of an encryption of any non-empty string gives it back |
| `Encryptor.EncryptedDecrypted` | src/base/encryptor.cc:155-257 | encryption of what was decrypted gives the ciphertext back byte for byte |
| `Encryptor.DecryptableIffEncrypted` | src/base/encryptor.cc:155-257 | the ciphertexts that are accepted are exactly the encryptions of non-empty strings |
| `Encryptor.GetMSCryptDeriveKeyWithSHA1` | src/base/encryptor.cc:93-112 | the 40 bytes derived from password and salt are the digests of the two masked buffers |
| `Encryptor.DerivedFromMaskedBuffers` | src/base/encryptor.cc:93-112 | the derived bytes are the digest of the buffer masked by 36 and then that of the buffer masked by 5c, both given byte by byte; the key is the first 32 |
| `EncryptorExamples.MaskedBuffersOfAbc` | src/base/encryptor.cc:93-112 | the two buffers for the password "ab" and the salt "c" |
| `Encryptor.Key.DeriveFromPassword` | src/base/encryptor.cc:124-153 | fails for an available key or an empty password and then changes nothing; else the key and the initial vector are set as a whole |
| `Encryptor.EncryptArray` | src/base/encryptor.cc:183-210 | exactly when it succeeds, and then the buffer holds the encryption of the padded text, the size is updated and the rest of the buffer stays |
| `Encryptor.DecryptArray` | src/base/encryptor.cc:212-257 | succeeds exactly on encryptions of non-empty texts; says what the buffer holds also when it fails |
| `Encryptor.EncryptString` | src/base/encryptor.cc:155-167 | succeeds exactly for a non-empty string and an available key, and then replaces the string by its encryption; on failure the string is left resized |
| `Encryptor.DecryptString` | src/base/encryptor.cc:169-181 | succeeds exactly on encryptions and replaces the string by the plaintext; on failure the string is as it was or, if it is whole blocks, decrypted in place |
| `Encryptor.ProtectedRoundTrip` | src/base/encryptor.cc:371-432 | under one password, what was protected is recovered, and what is recovered was protected |
| `Encryptor.ProtectData` | src/base/encryptor.cc:371-397 | prefixes the salt to the encryption; fails exactly without a password or a text |
| `Encryptor.UnprotectData` | src/base/encryptor.cc:400-432 | recovers exactly what such data protects |
| `Encryptor.ProtectedParts` | src/base/encryptor.cc:371-397 | what is protected is the salt and the encryption under the key of password and salt, from zeros; nothing exactly without a password or a text |
| `Sha1Spec.PaddingIsLeast` | src/base/unverified_sha1.cc:121-169 | the zero bytes of the padding are the least that fill up the last block, section 5.1.1 |
| `Sha1Spec.EarlierForms` | src/base/unverified_sha1.cc:52-69 | the logical functions agree with their earlier forms with inclusive or |
| `Sha1Spec.WordRoundTrip` | src/base/unverified_sha1.cc:93-104 | a word is the value of its four bytes in big-endian order |
| `Sha1Spec.LongRoundTrip` | src/base/unverified_sha1.cc:163-168 | the length is the value of its eight bytes in big-endian order |
| `Sha1Spec.NextStep` | src/base/unverified_sha1.cc:216-231 | one step: the words move on by one, the second one rotated by 30, and the new one is the sum of the first one rotated by 5, the function, the fifth, the constant and the word of the schedule |
| `Sha1Spec.FirstChoice` | src/base/unverified_sha1.cc:52-91 | function and constant of the steps 0 to 19 |
| `Sha1Spec.SecondChoice` | src/base/unverified_sha1.cc:52-91 | of the steps 20 to 39 |
| `Sha1Spec.ThirdChoice` | src/base/unverified_sha1.cc:52-91 | of the steps 40 to 59 |
| `Sha1Spec.FourthChoice` | src/base/unverified_sha1.cc:52-91 | of the steps 60 to 79 |
| `Sha1Spec.ConstantsAreRoots` | src/base/unverified_sha1.cc:77-91 | the constants are the integer parts of 2^30 times the square roots of 2, 3, 5 and 10 |
| `Sha1Spec.HashedInTurn` | src/base/unverified_sha1.cc:194-239 | data is hashed on from where its front left off |
| `Sha1Examples.KnownAnswer` | src/base/unverified_sha1.cc:121-239 | the digest of "abc", through all 80 steps |
| `Sha1.PaddedMessageIterator.TotalMessageCount` | src/base/unverified_sha1.cc:175-187 | the number of blocks is that of the padded message, for every message below 2^61 bytes |
| `Sha1.PaddedMessageIterator.FillNextMessage` | src/base/unverified_sha1.cc:121-169 | the block that is filled is that block of the padded message, for every index |
| `Sha1.FillSchedule` | src/base/unverified_sha1.cc:207-214 | the 80 words are the message schedule of the block |
| `Sha1.ProcessBlock` | src/base/unverified_sha1.cc:207-235 | the hash value after a block is the compression of section 6.1.2 |
| `Sha1.AsByteStream` | src/base/unverified_sha1.cc:93-104 | the hash value is written in big-endian order |
| `Sha1.MakeDigestImpl` | src/base/unverified_sha1.cc:194-239 | the digest is the fold of the compression over the blocks of the padded message |
| `NumberReader.AddAndCheckOverflow` | src/base/number_util.cc:537-545 | the output wraps around and the result tells exactly whether it did |
| `NumberReader.MultiplyAndCheckOverflow` | src/base/number_util.cc:549-557 | the same for products |
| `NumberReader.ReduceLeadingNumbersAsBase10System` | src/base/number_util.cc:614-629 | reads the leading digits as one decimal number; fails exactly when it needs more than 64 bits |
| `NumberReader.InterpretNumbersAsBase10System` | src/base/number_util.cc:635-642 | succeeds exactly when all numbers are digits and the value fits |
| `NumberReader.ReduceOnesDigit` | src/base/number_util.cc:646-654 | reads one digit or nothing |
| `NumberReader.ReduceDigitsHelper` | src/base/number_util.cc:674-725 | a digit with its rank, a rank alone, 廿, or digits that end the number; what is read and what is left in every case |
| `NumberRoundTrip.RunIsRead` | src/base/number_util.cc:694-704 | a run of two digits or more that ends the number is read as its decimal value, for every rank for which that is small enough |
| `NumberLoss.StepCases` | src/base/number_util.cc:674-725 | the value and the rest of a step in every case: a run, a run in excess, 廿, a rank with or without a digit, or nothing |
| `NumberReader.SmallReadingIsBelow10000` | src/base/number_util.cc:750-777 | what is read is at most 9999, takes at least one number, and is followed by nothing or by ten thousand or more |
| `NumberReader.ReduceNumberLessThan10000` | src/base/number_util.cc:750-777 | reads thousands, hundreds, tens and ones in turn; also when one of them gives up the rest of the numbers |
| `NumberMixed.RunAfterThousand` | src/base/number_util.cc:750-777 | [d, 1000] and two or three digits are read as 1000 d and their decimal value; so 2千500 is 2500 |
| `NumberMixed.RunAfterHundred` | src/base/number_util.cc:750-777 | [d, 100] and two digits are read as 100 d and their decimal value |
| `NumberMixed.RunAfterBoth` | src/base/number_util.cc:750-777 | [d, 1000, e, 100] and two digits are read as the sum of all three |
| `NumberReader.TermsDescend` | src/base/number_util.cc:783-808 | the terms have coefficients of at most 9999 and bases that strictly descend and are at least ten thousand, but for a last coefficient; no more terms than numbers |
| `NumberReader.InterpretNumbersInJapaneseWay` | src/base/number_util.cc:783-808 | succeeds exactly when there are terms and their unbounded sum fits 64 bits, with that sum; every overflow is noticed |
| `NumberMixed.ThousandWithRun` | src/base/number_util.cc:783-808 | so numbers of that form have these values |
| `NumberMixed.HundredWithRun` | src/base/number_util.cc:783-808 | and those of the other form |
| `NumberLoss.SegmentLeavesOut` | src/base/number_util.cc:674-777 | a reading below ten thousand leaves numbers out of a success exactly when thousands or hundreds are followed by digits in excess |
| `NumberLoss.NumbersAreLeftOut` | src/base/number_util.cc:783-808 | a successful reading in the Japanese way leaves numbers out exactly when that is so after the last big rank |
| `NumberLoss.LeftOutDoesNotMatter` | src/base/number_util.cc:697-702 | the numbers left out are the end of the numbers, two at least, and without them the reading is the same |
| `NumberLoss.DigitsAfterThousand` | src/base/number_util.cc:697-702 | a thousand followed by digits in excess is read as 1000, whatever the digits |
| `NumberLoss.FiveDigitsAreLeftOut` | src/base/number_util.cc:697-702 | [1000, 1, 2, 3, 4, 5] is an instance |
| `NumberLoss.DigitsAndTenAreLeftOut` | src/base/number_util.cc:697-702 | [1000, 1, 2, 10] is another one |
| `NumberReader.NormalizeNumbersHelper` | src/base/number_util.cc:812-824 | the decimal value if all numbers are digits, else the Japanese one |
| `NumberPrinter.ConvertSegment` | src/base/number_util.cc:269-294 | the text of four digits: zeros, and one in front of a rank, are left out as the style asks |
| `NumberPrinter.ConvertSegments` | src/base/number_util.cc:266-298 | the text of a number: its segments that are not zero with their big ranks |
| `NumberPrinter.ArabicToKanji` | src/base/number_util.cc:201-302 | 零 for zero; nothing for more than twenty digits or other characters; else the text in every style, the mixed styles from five digits on |
| `NumberExamples.CandidatesOfGreatest` | src/base/number_util.cc:201-302 | 18446744073709551615 in all four styles, character by character |
| `NumberNormalizer.NormalizeNumbers` | src/base/number_util.cc:827-896 | succeeds exactly when the text is read as a number; the Kanji and the decimal form, with or without leading zeros |
| `NumberNormalizer.DigitTexts` | src/base/number_util.cc:827-896 | a text of digits of any kind is accepted exactly below 2^64, and its decimal form is its digits |
| `NumberNormalizer.AsciiDigitsComeBack` | src/base/number_util.cc:827-896 | an ASCII digit string below 2^64 is its own decimal form, or is it from the first digit that is not zero if leading zeros are trimmed |
| `NumberNormalizer.KanjiOfDigit` | src/base/number_util.cc:62-63 | the Kanji digits in order; all but 〇 are read as the digit they stand for |
| `NumberNormalizer.KanjiFormComesBack` | src/base/number_util.cc:856-866 | the Kanji form of a readable text is read as the same number exactly if there is no Arabic zero in the text |
| `NumberNormalizer.KanjiFormOfTen` | src/base/number_util.cc:856-866 | the Kanji form of 10 is an instance that is not |
| `NumberNormalizer.FormattedIsRead` | src/base/number_util.cc:894 | a number printed in decimal is read as that number |
| `NumberRoundTrip.KanjiSegmentIsRead` | src/base/number_util.cc:674-777 | the numbers of any printed segment are read as its value, and nothing after it is |
| `NumberRoundTrip.OneBeforeRankIsRejected` | src/base/number_util.cc:706-710 | [1, 10] and [1, 100] are rejected wherever they stand in a segment |
| `NumberRoundTrip.ArabicSegmentIsRead` | src/base/number_util.cc:694-704 | up to four digits before a big rank are read as their decimal value |
| `NumberRoundTrip.TextStandsFor` | src/base/number_util.cc:266-298 | the numbers of a printed text have as terms exactly its segments, whatever the number |
| `NumberRoundTrip.PlainAndMixedTextsComeBack` | src/base/number_util.cc:201-323 | for every string of at most twenty digits that is not zero, the plain Kanji text and both mixed texts are read as the number that was printed when it is below 2^64, and rejected when it is not; normalized they are the digits again |
| `NumberRoundTrip.OldTextsComeBackWhenLegible` | src/base/number_util.cc:244-298 | the text in old Kanji comes back exactly when there is no digit in a place of 阡 or 萬 and no one in front of 百 or 拾 |
| `NumberRoundTrip.OldStyleDoesNotAlwaysComeBack` | src/base/number_util.cc:287-291 | 壱拾 is an instance that does not |
| `NumberRoundTrip.CandidatesComeBack` | src/base/number_util.cc:201-323 | every candidate that is printed for a number below 2^64 is read as that number and normalized to its digits, but for illegible old Kanji; every other candidate is rejected |
| `NumberRoundTrip.ZeroComesBack` | src/base/number_util.cc:211-222 | 零 is read as zero |
| `Version.OlderIsAStrictOrder` | src/base/version.cc:84-98 | being older is irreflexive, asymmetric and transitive |
| `Version.NeitherOlderNorNewer` | src/base/version.cc:84-98 | two known versions are neither older nor newer exactly when their numbers agree |
| `Version.OlderIsSmallerWhereTheyDiffer` | src/base/version.cc:84-98 | a known version is older than another one exactly when its number is smaller, or missing, at the first place where they differ |
| `Version.PartsOfJoined` | src/base/version.cc:92-95 | parts joined by dots are split again |
| `Version.OlderVersions` | src/base/version.cc:84-98 | 2.28, 2.9 and 2 are older than 2.29 |
| `Client.Client.Call` | src/client/client.cc:662-750 | the answer, the status, the versions and the wire after one message, as functions of the outcome: no client, no connection, another protocol, a timeout, a loss, a message that is no answer, or an answer; nothing is sent after a failure |
| `Client.StatusByOutcome` | src/client/client.cc:662-750 | the status after each outcome of a message and of an attempt to connect |
| `Client.Client.AddressedInput` | src/client/client.cc:765-770 | an input is given the id of the session and the preferences, if there are any, and nothing else |
| `Client.Client.CallAndCheckVersion` | src/client/client.cc:648-660 | the answer, the wire and the status after one message, another protocol being a version mismatch; nothing is sent after a failure |
| `Client.Client.EnsureConnection` | src/client/client.cc:137-186 | true exactly with status OK or invalid session, false only with status fatal; which error is shown; at most one start, and none from a known server |
| `Client.Client.StopServer` | src/client/client.cc:803-824 | success means that a server was waited for until it stopped or was terminated; without the protocol it is terminated by force, and no message is sent |
| `Client.Client.RebootServer` | src/client/client.cc:803-831 | success means that the server was stopped and after that one was started, at most one in all; nothing but the message to stop is sent |
| `Client.Client.CheckVersionOrRestartServerInternal` | src/client/client.cc:772-845 | from the choices of the environment exactly whether the input is answered, by which choice, and the status afterwards, the restart included; the input is sent at most twice, at most one server is started, and success means that the last message was the input, answered by a server of the same protocol and of no older a product version; from fatal nothing happens exactly when the protocol last seen was not an older one |
| `Client.Client.CreateSession` | src/client/client.cc:477-509 | exactly when a session is opened; it has the id of the answer, and the messages to it begin right after |
| `Client.Client.OpenSession` | src/client/client.cc:201-220 | exactly when a session is opened; it was sent the request and nothing else, and it was told the request exactly if there is none or its message was answered |
| `Client.Client.EnsureSession` | src/client/client.cc:188-221 | from the choices of the environment exactly when there is a session afterwards, and its id; the present session stays as it is; a new one was sent the request and nothing else, and was told it exactly if there is none or its message was answered |
| `ClientExamples.RequestMayBeLost` | src/client/client.cc:211-219 | a run after which a session counts as in order although its request was lost |
| `Client.Client.SendJournal` | src/client/client.cc:246-265 | the entries are sent in order under the present id up to the first one that is not answered |
| `Client.Client.PlaybackHistory` | src/client/client.cc:246-265 | the journal is sent in order under the new id until one entry fails; a full journal is dropped, a managed one is not played |
| `Client.Client.PushHistory` | src/client/client.cc:267-296 | the journal after an answer: consumed inputs, up to 512, emptied by a key with a result |
| `ClientRecovery.JournalTakesConsumed` | src/client/client.cc:267-296 | consumed inputs are taken, up to 512, and all are forgotten with a result of a key; other inputs are not taken |
| `ClientRecovery.FullJournalIsNotPlayed` | src/client/client.cc:246-254 | a journal of 512 entries is dropped |
| `Client.Client.PrepareGrimodexManagedInput` | src/client/client.cc:321-332 | a Grimodex context makes the session managed for good and empties the journal |
| `Client.Client.FirstTrial` | src/client/client.cc:403-416 | the input is sent once; the status stays OK exactly if it is answered under the id of the session, and the session is lost exactly if there is no server, the message is lost with it, or the answer has another id |
| `Client.Client.SecondTrial` | src/client/client.cc:429-457 | the journal is replayed in full and the input answered exactly if every message is answered; then the session has received the request, if that was answered, the journal in order, the input, and nothing else |
| `Client.Client.Recover` | src/client/client.cc:418-454 | a managed session is not retried at all; any other one is rebuilt in full exactly if a session is opened and every message to it is answered |
| `Client.Client.CallInSession` | src/client/client.cc:403-458 | what comes of an input in a session: answered at once under its id, given up, or recovered as below; a managed input is sent at most once |
| `Client.Client.EnsureCallCommand` | src/client/client.cc:395-458 | from the choices of the environment exactly whether there is a session to send the input to, whether the input is answered at once, with which output and id, whether the session is lost with it, and then exactly when it is rebuilt in full and the input answered; an input answered at once is the one message sent; if the session was lost before, the new one received the request and the input; if it was lost with the input, the new one received, under its id, the request, the journal in order and the input; whether the request was answered is told; a managed input is sent at most once; from fatal nothing happens |
| `Client.Client.CallCommand` | src/client/client.cc:640-646 | one message of the kind, answered exactly on success; neither the journal nor the record of user inputs changes |
| `Client.Client.CheckVersionOrRestartServer` | src/client/client.cc:380-393 | false exactly with status fatal left behind; true if the check is answered as above, false if it leaves a failure; the check is sent at most twice and at most two servers are started; from fatal, nothing is sent, started, terminated or waited for exactly when the protocol last seen was not an older one, and else a server is terminated by force |
| `ClientExamples.FatalIsNotTheEnd` | src/client/client.cc:772-845 | a run that terminates a server and starts one from the fatal status |
| `Client.Client.DeleteSession` | src/client/client.cc:511-528 | succeeds exactly without a session or with an answered message, and leaves no session |
| `Client.Client.Shutdown` | src/client/client.cc:580-587 | the server is waited for whether or not it got the message, and the result is that of the wait |
| `Client.Client.Reset` | src/client/client.cc:847-851 | the status becomes unknown, and the protocol version and the process of the server are forgotten |
| `Client.SentInOrder` | src/client/client.cc:321-332 | calls that each send their own input once or not at all send every submission at most once, none that is older, and none out of order |
| `Client.Client.RunCall` | src/client/client.cc:321-458 | what one public call adds to the submissions and to the inputs sent |
| `Client.Client.Run` | src/client/client.cc:321-458 | over any sequence of public calls: once managed the journal stays empty, every call sends its own input once or not at all and nothing else of the user, and so the inputs sent from then on are different ones of those submitted from then on, in order; from fatal, user inputs neither send nor start anything |
| `ClientRecovery.JournalHoldsTheState` | src/client/client.cc:267-296 | after every run of inputs to a deterministic server, a journal that is not full rebuilds the state of the session, even if it has been full before |
| `ClientRecovery.LostSessionIsRebuilt` | src/client/client.cc:246-265 | replaying such a journal takes a new session to the lost state, and the input gets the answer it would have got |
| `ClientRecovery.RecoveredSessionGoesOn` | src/client/client.cc:395-458 | what the recovered session received after the request takes the server to where the lost session would have gone |
| `ClientRecovery.InStepWithNewSession` | src/client/client.cc:188-221 | a journal kept for a new session holds its state if it was empty, if the input emptied it, or if neither its entries nor the input count |
| `ClientRecovery.OutOfStepWithNewSession` | src/client/client.cc:188-221 | else some server with the same answer is in another state than the journal says |
| `ClientRecovery.JournalOfNewSession` | src/client/client.cc:188-221 | so the condition is exact over all servers |
| `ClientRecovery.NewSessionMayBeOutOfStep` | src/client/client.cc:188-221 | an instance: the server has got one key, the journal has two |
| `Utf8.SplitFirstChar32` | src/base/util.cc:382-470 | the first code point and the rest, or failure, for every byte string |
| `Utf8.SplitLastChar32` | src/base/util.cc:472-508 | the last code point and the rest, or failure; on failure the code point before trailing bytes in excess, or zero |
| `Utf8.TrailingInExcess` | src/base/util.cc:498-504 | an instance: the bytes 61 80 fail with 61 |
| `Utf8.IsValidUtf8` | src/base/util.cc:510-520 | true exactly if the string splits into code points to its end |
| `Utf8.Utf8ToUtf32` | src/base/util.cc:352-359 | the code points up to the first failure |
| `Utf8.CodepointToUtf8` | src/base/util.cc:535-586 | the bytes, their number and the terminating zero, and no other byte of the buffer |
| `Utf8.Utf32ToUtf8` | src/base/util.cc:361-367 | the encodings in order |
| `Utf8.EncodedIsSplit` | src/base/util.cc:382-470 | an encoded code point is split off whatever follows it |
| `Utf8.EncodedIsMisread` | src/base/util.cc:569-585 | a code point beyond those is read as another one, if at all |
| `Utf8Examples.KnownEncodings` | src/base/util.cc:535-586 | one code point of every length; section 3 of RFC 3629 |
| `Utf8Examples.KnownDecodings` | src/base/util.cc:382-470 | and back, whatever follows |
| `Utf8Examples.TwoBytes` | src/base/util.cc:535-586 | the bits of all code points of two bytes |
| `Utf8Examples.ThreeBytes` | src/base/util.cc:535-586 | of three bytes |
| `Utf8Examples.FourBytes` | src/base/util.cc:535-586 | and of four |
| `Utf8.CodepointsComeBack` | src/base/util.cc:352-367 | for every sequence, decoding the encoding gives it back exactly if every code point is positive, below 2^31 and not between 0x4000000 and 0x7FFFFFF; so for all of Unicode but zero |
| `Utf8.BytesComeBack` | src/base/util.cc:352-367 | for every valid string, encoding its code points gives it back exactly under the same condition |
| `Utf8.LastOfValid` | src/base/util.cc:472-508 | on valid strings the backward split finds the last code point and leaves a valid string |
| `Utf8.BackwardsIsReverse` | src/base/util.cc:62-97 | on every valid string the backward order is the reverse of the forward order |
| `Utf8.ConstChar32Iterator.Next` | src/base/util.cc:72-76 | what remains loses its first code point, and nothing remains after the first failure |
| `Utf8.ConstChar32ReverseIterator.constructor` | src/base/util.cc:80-84 | on a valid string the code points to come are those of the string in reverse |
| `Utf8.ConstChar32ReverseIterator.Next` | src/base/util.cc:91-95 | what remains loses its first code point |
| `Csv.UnquoteInPlace` | src/base/util.cc:231-241 | the quoted text is moved to its start; the write position never passes the read position, and the unread part stays |
| `Csv.ReadField` | src/base/util.cc:227-250 | one field, the next comma, and whether an empty last field follows, as the program tells from its buffer |
| `Csv.SplitCSV` | src/base/util.cc:217-258 | the fields of the text, for every text, although its buffer is overwritten while it is read |
| `Csv.LinesComeBack` | src/base/util.cc:217-258 | a line of plain and quoted fields (section 2 of RFC 4180), each after any blanks, is split into exactly those fields, but for an empty last field without quotes and blanks, which is lost exactly when it is alone or follows a quoted one |
| `Csv.QuotedFieldsComeBack` | src/base/util.cc:217-258 | every non-empty list of quoted fields comes back |
| `Csv.FieldAfterBlanks` | src/base/util.cc:227-229 | blanks in front of a field make no difference |
| `Csv.ThreeFields` | src/base/util.cc:217-258 | a, b,"c,""" is split into a, b and c," |
| `Csv.OpenQuoteTakesAll` | src/base/util.cc:231-241 | a quote that is not closed takes all that is left |
| `Csv.TextAfterQuotesIsDropped` | src/base/util.cc:231-243 | what stands between a closing quote and the next comma is dropped |
| `CompositionTable.UsableMeansNeverShort` | src/composer/char_chunk.cc:439-442 | a pending string is usable exactly when no input finds a rule that uses less than the pending string, which the subtraction of the lengths relies on |
| `CompositionTable.WalkAlongLonger` | src/base/container/trie.h:109-127 | a longer key is walked the same way as far as the shorter one goes |
| `CompositionTable.LookUpIsLongest` | src/base/container/trie.h:109-127 | the lookup uses the longest part of the key that begins a rule, finds the rule that is just that, and tells whether a longer one begins with it |
| `CompositionTable.SpecialKeysGo` | src/composer/special_key.cc:143-161 | a special key in front is removed, in one character or in brackets up to the first closing one; anything else stays |
| `CharChunk.RoundKeepsUsable` | src/composer/char_chunk.cc:353-485 | every round leaves a usable pending string |
| `CharChunk.RoundGetsSmaller` | src/composer/char_chunk.cc:487-494 | a round that is repeated has less input left, or as much and a pending string of lower rank |
| `CharChunk.RoundConserves` | src/composer/char_chunk.cc:353-485 | raw text and remaining input are conserved, unless a special key is trimmed or an empty result is dropped; each exception in its exact form |
| `CharChunk.RoundWithRule` | src/composer/char_chunk.cc:428-484 | by what the lookup finds: a fixed or shorter rule adds its result to the converted text and leaves its pending string; else the result is ambiguous and the key pending; attributes, snapshot, rest and repetition in both cases |
| `CharChunk.RawTextWithRule` | src/composer/char_chunk.cc:468-478 | the raw text, which an empty result that is not to be transliterated drops, exactly when nothing else is held or to come |
| `CharChunk.RoundWithoutRule` | src/composer/char_chunk.cc:364-426 | without a rule: a longer prefix is pending, a character that begins no rule is taken as it is, a special key is removed, or nothing happens; each in its exact case |
| `CharChunk.ConversionIsOfResults` | src/composer/char_chunk.cc:353-494 | in every run the converted text is that of the results that the lookups of its rounds found, in order, across fallbacks |
| `CharChunkExamples.TypingA` | src/composer/char_chunk.cc:353-485 | with a rule from a to あ, typing a shows あ |
| `CharChunk.AddingConserves` | src/composer/char_chunk.cc:487-494 | adding input ends and conserves every character, the fallback with its replay included |
| `CharChunk.SnapshotIsOfDisplay` | src/composer/char_chunk.cc:453-466 | a snapshot is of what is displayed exactly when the rule has a result |
| `CharChunk.RoundKeepsSnapshot` | src/composer/char_chunk.cc:453-466 | a round that displays no ambiguous result keeps the snapshot or clears it |
| `CharChunk.SnapshotIsOfLastDisplayed` | src/composer/char_chunk.cc:320-325 | in every run a snapshot is of the chunk after the last round that displayed an ambiguous result |
| `CharChunk.FallingBackFixesWhatWasShown` | src/composer/char_chunk.cc:333-351 | in every run, falling back fixes the raw text, the result and the attributes of the last round that displayed an ambiguous result, hands back what was typed since, and shows what was shown then exactly unless an empty result stood for a pending string |
| `CharChunk.AddingIsARun` | src/composer/char_chunk.cc:487-494 | adding an input is a run of its rounds |
| `CharChunk.AddingInTurnIsARun` | src/composer/char_chunk.cc:487-494 | so is adding texts one after the other |
| `CharChunkExamples.FallingBackToN` | src/composer/char_chunk.cc:333-351 | n, y, x with rules for n and nya falls back to the result of n, or loses the n that was shown if that is empty |
| `CharChunk.NewChunkUsesInput` | src/composer/char_chunk.cc:487-494 | a new chunk uses some of its input, if no rule has an empty input |
| `CharChunk.EmptyRuleUsesNothing` | src/composer/char_chunk.cc:487-494 | else it uses nothing of a character that no rule has |
| `CharChunk.NewChunksUseAllInputs` | src/composer/char_chunk.cc:487-494 | so filling new chunks with what is left ends for every input exactly if no rule has an empty input |
| `CharChunk.CharChunk.GetDisplayConverted` | src/composer/char_chunk.cc:136-141 | the text the user sees |
| `CharChunk.CharChunk.ClearDisplayAmbiguousResultFallback` | src/composer/char_chunk.cc:313-318 | the snapshot goes, everything else stays |
| `CharChunk.CharChunk.SaveDisplayAmbiguousResultFallback` | src/composer/char_chunk.cc:320-325 | the snapshot becomes that of the present, everything else stays |
| `CharChunk.CharChunk.HasDisplayAmbiguousResultFallback` | src/composer/char_chunk.cc:327-331 | whether there is a snapshot of a proper prefix |
| `CharChunk.CharChunk.RestoreDisplayAmbiguousResultFallback` | src/composer/char_chunk.cc:333-351 | the fields after falling back, and the input to type again |
| `CharChunk.CharChunk.AddUnmatched` | src/composer/char_chunk.cc:364-426 | all cases without a rule |
| `CharChunk.CharChunk.AddMatched` | src/composer/char_chunk.cc:428-484 | all cases with a rule |
| `CharChunk.CharChunk.AddInputInternal` | src/composer/char_chunk.cc:353-485 | one round in place, every field |
| `CharChunk.CharChunk.AddInput` | src/composer/char_chunk.cc:487-494 | the rounds in place, every field; the chunk stays the one after all its rounds from the empty one on, and the record of rounds grows by those of the input |
| `RecursiveMutex.StepKeepsInvariant` | src/base/thread.h:356-392 | every step of every thread keeps the invariant, whichever earlier write to the owner it reads |
| `RecursiveMutex.RunsKeepInvariant` | src/base/thread.h:348-406 | so every state of every run has it |
| `RecursiveMutex.RunsExclude` | src/base/thread.h:348-406 | at most one thread is inside; the owner is it or nobody; no two threads can touch the depth; the depth is the number of unmatched locks |
| `RecursiveMutex.RunsPassChecks` | src/base/thread.h:353-379 | no check of the program fails in any run |
| `RecursiveMutex.HoldersDoNotWait` | src/base/thread.h:359-366 | a thread that has a lock never waits for the inner mutex |
| `RecursiveMutex.OnlyTheHolderIsWaitedFor` | src/base/thread.h:356-387 | in every run a thread can go on exactly unless it waits while the inner mutex is taken; the thread that has it never waits, so it can go on |
| `CodeGen.BasicCodeGenByteArrayStreamBuf.OpenVarDef` | src/base/codegen_bytearray_stream.cc:61-71 | begins a definition, unless one is open or the name is empty |
| `CodeGen.BasicCodeGenByteArrayStreamBuf.WriteBytes` | src/base/codegen_bytearray_stream.cc:134-145 | the text of the bytes from the present count on |
| `CodeGen.BasicCodeGenByteArrayStreamBuf.Overflow` | src/base/codegen_bytearray_stream.cc:113-131 | the buffer and one more byte go out; nothing happens while no definition is open |
| `CodeGen.BasicCodeGenByteArrayStreamBuf.Put` | src/base/codegen_bytearray_stream.cc:113-131 | one byte more, in the buffer or past it; while no definition is open it is kept if there is room and refused if not |
| `CodeGen.BasicCodeGenByteArrayStreamBuf.Write` | src/base/codegen_bytearray_stream.cc:99-110 | several bytes more, in the buffer or past it; while no definition is open they are kept if there is room and go to the output if not, past those kept |
| `CodeGen.BasicCodeGenByteArrayStreamBuf.Flush` | src/base/codegen_bytearray_stream.cc:90-95 | all bytes are in the text |
| `CodeGen.BasicCodeGenByteArrayStreamBuf.CloseVarDef` | src/base/codegen_bytearray_stream.cc:74-87 | the text is that of all bytes rendered directly |
| `CodeGen.BasicCodeGenByteArrayStreamBuf.Define` | src/base/codegen_bytearray_stream.cc:61-145 | any sequence of put, write and flush between opening and closing gives the text of the concatenated bytes, however they were split |
| `CodeGen.RenderedConcat` | src/base/codegen_bytearray_stream.cc:134-145 | rendering in pieces is rendering at once |
| `CodeGen.DefinitionIsRead` | src/base/codegen_bytearray_stream.cc:61-87 | reading the hexadecimal text gives the bytes back, and the size printed is their number |
| `CodeGenReader.LayoutOfBytes` | src/base/codegen_bytearray_stream.cc:134-145 | six characters a byte, twenty bytes a line, the hexadecimal digits of the byte |
| `CodeGenReader.DefinitionDeclares` | src/base/codegen_bytearray_stream.cc:61-87 | a reader of the whole text finds the name, the type, the bytes and their number, and the same name in the declaration of the size |

## Left out

- SHA-1 of messages of 2^61 bytes or more, whose length in bits does not fit 64 bits; the program wraps around there.
- Encryptor: `ProtectData` and `UnprotectData` of Windows and macOS; the choice of random salts; any claim about
  cryptographic strength; a null size pointer, which has no counterpart here.
- Encryptor.ProtectData: the password is a parameter; where it is stored is not modelled.
- NumberPrinter.ArabicToKanji: does not print the extra candidates 廿 for 弐拾 and the single 拾 and 阡, nor the
  descriptions of candidates, because they are presentation only.
- Numbers: separated, wide, Roman, circled and superscript forms, other radixes, and floating point.
- NumberNormalizer.NormalizeNumbers: the variant that keeps a suffix, because it rests on the classification of scripts.
- Client: timeouts, dialogs, tools and browsers, `PingServer`, key settings, `GetConfig` and `SetConfig`; protobuf and
  IPC transport; the branches for debug builds and for macOS; the mode remembered only for macOS.
- Client.Client.Run: a launcher that calls back into the client while it starts a server is not modelled.
- Utf8: grapheme clusters, script and width classification, conversion to UTF-16.
- CharChunk: `SplitChunk`, `GetExpandedResults`, `Combine`, transliteration, lengths, and input that is converted
  already, because these rest on the transliterators.
- CompositionTable: loading and adding rules, the new-chunk prefix, and trie nodes left behind by deleted rules.
- CharChunk.AddingConserves: asks for input without special keys and rules that allow transliteration, because the
  program removes characters otherwise; `RoundConserves` has all cases.
- CodeGen.BasicCodeGenByteArrayStreamBuf.CloseVarDef: a stream that fails is not modelled; output that fails has no text
  to compare.
- RecursiveMutex: thread ids that wrap around or are shared, threads that unlock what they have not locked, and the
  use of `TaskManager` and `BackgroundFuture` beside it.
- The operating system: files, processes, launchers, clocks, environment variables and the locking of processes.
