# Models and proofs for the algorithms of src/common

A Dafny model of the self-contained algorithmic files of the VSCP daemon's `src/common` directory, with proofs of what
they promise: block ciphers and their chaining modes, calendar arithmetic, order statistics over a counted search
tree, streaming hashes, a template engine, CRCs, base64, a byte queue and a linked list. Code that changes things in
place is modelled by methods over arrays and classes, each proved equal to a specification function or to a statement
about the old state; the theorems about the specification functions are lemmas. `dafny verify dfyconfig.toml` checks
everything.

## The parts

**Rijndael** (`Gf256`, `SBox`, `Fips197`, `RijndaelTables`, `RijndaelRounds`, `ChainModes`, `CRijndael`). `Fips197`
states the cipher of FIPS 197 for four, six and eight columns and any key schedule, and proves that its inverse undoes
it. `CRijndael` models the class: key set-up by words, the general loops, the unrolled 128-bit routines, the three
modes and the chain that persists between calls. Everything holds for the nine combinations of key and block size.

*Four table entries are wrong.* In rijndael.cpp the entries sm_T1[186] (line 131), sm_T3[234] (line 277), sm_T6[50]
(line 432) and sm_U2[161] (line 728) are not the products that the other 3068 entries are: in the decimal numbers the
digits 2020 have become 2021. The model keeps the tables as they are (`RijndaelTables`: products, with the four
entries spelt out). As a consequence "DecryptBlock undoes EncryptBlock for every block and key" is false of the code:
under *every* key and block size two different blocks are enciphered to the same block (`TwoBlocksCollide`), so one of
them cannot come back, and from every chain ECB and CBC lose some one-block message (`SomeMessageIsLost`). What holds
is proved around that: one lookup is right if and only if it reaches none of the four entries (`LookUpExact`,
`LookUpKeyExact`); the states after all rounds are right if and only if no round does (`TraceAgrees`); the decryption
keys are right if and only if deriving them does not (`DecryptionKeysExact`). The wrong entries of T6 and U2 hold the
same error, so in deciphering a wrong lookup and a wrong key column cancel (`NetLookUpExact`, `HitsCancel`). Call a
round of deciphering *bad* when its round of enciphering reached a wrong entry or when an error is left in one of its
own columns. Deciphering goes back over every state of enciphering if and only if no round is bad (`Retraces`), and a
block with at most one bad round comes back if and only if it has none (`AtMostOneBadRound`). One is as far as
counting can go: two bad rounds can cancel (`TwoBadRoundsCancel`). Behind this stands the equivalent inverse cipher of
section 5.3.5 of FIPS 197, proved for every schedule and state (`EquivalentInverseCipher`). CFB, which never runs the
inverse cipher, is always undone; ECB and CBC are undone if and only if each block given to the block cipher comes
back (`ModesRoundTrip`), so they are when none of those blocks has a bad round and are not when one of them has just
one (`ModesUndone`).

*What the tables and the steps are.* The substitution is proved to be the affine map of the inverse in GF(2^8)
(`SubIsAffineInverse`), and the whole cipher, with its key expansion, is followed through sections C.1 and C.3 of FIPS
197 state by state (`VectorC1`, `VectorC3`). `vscp-aes.c` gives both ciphertexts. The class gives that of C.1 and not
that of C.3: there the second column of the twelfth round reaches sm_T1[186], and the result is
15a28c6f51af647b0c55b990054560e9 where the standard has 8ea2b7ca516745bfeafc49904b496089 (`KnownCiphers`).

*The result may overwrite the input.* Encrypt and Decrypt take any two buffers, and then not all modes work: CFB over
its own input gives zeros both ways, and deciphering in CBC takes the plaintext for the chain. `EncryptIntoRight` and
`DecryptIntoRight` say of the input alone when the result is nevertheless right: in CFB of one message of each length,
in CBC when every block but the last is its own plaintext. For every cipher and chain some message is lost
(`FeedbackIntoLoses`, `ChainingIntoLoses`).

**AES on bytes** (`Aes`). `vscp-aes.c`: every transform of the 4 by 4 matrix in place, the key expansion into a byte
buffer, and the CBC buffers, for 128, 192 and 256-bit keys. Its tables are right and the round trip holds for every
key, initial vector and positive whole number of blocks. The encrypting loop leaves each input block added to the
ciphertext before it, and that is stated too.

**Calendar** (`JulianDay`, `AlternateDay`, `Date`). The default conversion computes with decimal constants; the model
uses exact reals and truncation toward zero. Both directions are proved for every day number from 0 on, and that the
date of the next number is the next day of a calendar defined on its own: Julian to 4 October 1582, Gregorian from 15
October 1582, no year 0. The alternate conversion round-trips in the Gregorian calendar extended to all years and
agrees with the default one from day 2299161 on. `Date` reads the class's arithmetic as steps through that calendar.

**Order statistics** (`CountedTree`, `OrderStatistics`). `sqlite3math.c`: insertion through links, in-order iteration
with a callback, and the aggregates. The iterators read 64-bit values through `int*`, so a value outside 32 bits comes
back changed: 4294967296 has median 0 (`WordIsLost`). The iterators also convert two counts to int. For all values and
any number of them, the result is the quantile if and only if the selected values' counts fit an int (`Counted`:
always below 2^31 values, never for 2^31 copies of one), and it is the quantile of the values as they were given if
and only if the selected values are moreover read as themselves: one selected value must fit 32 bits, and of two the
multiples of 2^32 that are lost must cancel (`QuantileIsTrue`). The mode is itself if and only if it fits.

**Hashes** (`BlockStream`, `Sha1`, `Md5`). The ring of 16 words in `sha-1.c` against the schedule of 80; the 64
operations written out in `vscpmd5.c` against the numbered operations of RFC 1321; both against the one-shot
definition over the padded message for every way of cutting the input into calls. The bit count is modulo 2^64, as
both files keep it. That definition gives the published digests of "abc" (`Sha1Abc`, `Md5Abc`), which depend on every
constant, function and shift.

**Templates** (`MustacheParser`, `MustacheRenderer`, `MustacheTags`, `MustacheTemplates`). `mustache.hpp`: the
parser's loop, whose tokens are the one way to tile the input; the nesting that pops without looking at names and the
walk that checks names later, against proper nesting defined on the flat tokens; rendering with the stack of data and
the line buffer, against lines defined on the flat pieces of output. The tree is the only one with those tokens in
which every section, and nothing else, ends with an end tag (`TreeIsTheOne`). Templates of text, variables, comments
and sections, nested to any depth, are followed from their characters to their output (`TemplateRenders`), and which
sections show is stated of the data alone (`SectionUnder`, `SectionRenders`).

**CRC** (`Crc`). By bits and by table, for any polynomial of 16 bits, and what it detects: under every standard with
an odd polynomial all errors within 16 adjacent bits, wherever in a byte they begin; an error of 17 bits in the form
of the polynomial never.

**Base64** (`Base64`), **byte queue** (`Fifo`), **linked list** (`DlList`).

## Model

| member | source | states |
|---|---|---|
| Gf256.MultiplyLinear | src/common/vscp-aes.c:396-403 | multiplication by a constant, done by doublings, distributes over addition |
| Gf256.TimesInjective | src/common/rijndael.h:55-60 | no byte but 0 has the same product with two factors, so inverses are unique |
| Gf256.MultiplyIsTimes | src/common/rijndael.h:55-60 | multiplication by a constant is the product of GF(2^8), eight doublings added |
| Gf256.MixInverse | src/common/vscp-aes.c:379-433 | the column mixing and its inverse undo one another, both ways, for every column |
| SBox.SubInverse | src/common/vscp-aes.c:232-240 | the inverse substitution table undoes the substitution table on all bytes |
| SBox.InvSubInverse | src/common/vscp-aes.c:232-240 | and the other way round |
| SBox.SubIsAffineInverse | src/common/vscp-aes.c:132-149 | every entry of the substitution table is the affine map of the inverse of its place, 0 for 0, and of nothing else (section 5.1.1 of FIPS 197) |
| Fips197.ShiftRowsInverse | src/common/rijndael.cpp:896-915 | for four, six and eight columns the two row shifts are inverse permutations |
| Fips197.RotWordRotates | src/common/vscp-aes.c:273-280 | the rotation of the key expansion and the rotation of a column undo one another |
| Fips197.BackwardIsForward | src/common/vscp-aes.c:480-528 | r rounds of the inverse cipher from the ciphertext reach the state before the last r rounds of the cipher |
| Fips197.InvCipherUndoesCipher | src/common/vscp-aes.c:480-528 | the inverse cipher undoes the cipher for every key schedule and state of four, six or eight columns |
| Fips197.CipherUndoesInvCipher | src/common/vscp-aes.c:480-528 | and the cipher undoes the inverse cipher |
| RijndaelTables.CorruptEntries | src/common/rijndael.cpp:84-752 | the four wrong entries, each by its distance from the product it stands for |
| RijndaelTables.LookUpError | src/common/rijndael.cpp:1215-1219 | what four lookups give differs from the mixed, substituted column by exactly the errors of the entries reached |
| RijndaelTables.LookUpExact | src/common/rijndael.cpp:1261-1266 | a lookup is right if and only if it reaches no wrong entry |
| RijndaelTables.LookUpKeyExact | src/common/rijndael.cpp:1025-1032 | a lookup for a derived key column is right if and only if it misses entry 161 of U2 |
| RijndaelTables.NetLookUpExact | src/common/rijndael.cpp:1261-1266 | a deciphering lookup and its derived key column together are right if and only if both reach their wrong entries or neither does |
| RijndaelTables.ErrorsDiffer | src/common/rijndael.cpp:1215-1266 | no error of enciphering, with its column mixing undone, is an error of deciphering: the two never cancel in one column |
| RijndaelRounds.ExactCipherIsCipher | src/common/rijndael.cpp:1190-1231 | rounds that substitute and mix in one step compute the cipher of FIPS 197 |
| RijndaelRounds.EquivalentInverseCipher | src/common/rijndael.cpp:1237-1278 | deciphering rounds over the reversed, inverse-mixed schedule compute the inverse cipher (section 5.3.5 of FIPS 197) |
| RijndaelRounds.TraceAgrees | src/common/rijndael.cpp:1213-1221 | the states after all rounds are the right ones if and only if no round reaches a wrong entry |
| RijndaelRounds.DecryptionKeysExact | src/common/rijndael.cpp:1024-1032 | the derived decryption schedule is the inverse-mixed one if and only if deriving it reaches no wrong entry |
| RijndaelRounds.CleanEncryption | src/common/rijndael.cpp:1190-1231 | a run that reaches no wrong entry enciphers as FIPS 197 does |
| RijndaelRounds.CleanDecryption | src/common/rijndael.cpp:1237-1278 | a run that reaches no wrong entry deciphers as FIPS 197 does |
| RijndaelRounds.OneHitIsWrong | src/common/rijndael.cpp:1213-1278 | in either direction, a block that reaches a wrong entry in exactly one round does not get what right lookups under the same schedule would give |
| RijndaelRounds.OneKeyIsWrong | src/common/rijndael.cpp:1024-1032 | right lookups under a schedule with one wrongly derived round key decipher every state wrongly |
| RijndaelRounds.AtMostOneNetRound | src/common/rijndael.cpp:1024-1278 | with errors left in at most one round the class deciphers as FIPS 197 does if and only if there is none |
| RijndaelRounds.NetTraceAgrees | src/common/rijndael.cpp:1237-1278 | every state of deciphering under derived keys is right if and only if no round leaves an error |
| RijndaelRounds.HitsCancel | src/common/rijndael.cpp:1024-1278 | a wrong lookup and a wrongly derived key in one round cancel: for every block size there are round keys and a block with both, deciphered as FIPS 197 says |
| RijndaelRounds.RightDeciphering | src/common/rijndael.cpp:1190-1278 | when no round of deciphering leaves an error a block comes back if and only if it was enciphered as FIPS 197 says |
| RijndaelRounds.AtMostOneHit | src/common/rijndael.cpp:1190-1278 | a block comes back if and only if it has no hit, when the rounds of enciphering that reach a wrong entry and the rounds of deciphering that leave an error are at most one in all |
| RijndaelRounds.Retraces | src/common/rijndael.cpp:1190-1278 | deciphering goes back over every state of enciphering if and only if no round is bad |
| RijndaelRounds.AtMostOneBadRound | src/common/rijndael.cpp:1190-1278 | a block with at most one bad round, errors of a round of enciphering and of its undoing taken together, comes back if and only if it has none |
| RijndaelRounds.TwoBadRoundsCancel | src/common/rijndael.cpp:1190-1278 | for every block size there are round keys and a block that has two bad rounds and comes back |
| RijndaelRounds.TwoBlocksCollide | src/common/rijndael.cpp:1190-1231 | under every schedule two different blocks are enciphered to one |
| ChainModes.RoundTrip | src/common/rijndael.cpp:1280-1355 | deciphering in a mode undoes enciphering from the same chain if and only if the mode is CFB or every block given to the block cipher comes back |
| ChainModes.SurvivesIsEveryBlock | src/common/rijndael.cpp:1280-1316 | the condition of the round trip is that each block given to the block cipher comes back, for the blocks listed in order |
| ChainModes.EncryptSplit | src/common/rijndael.cpp:1280-1316 | enciphering two messages in turn is enciphering them as one, the chain carried over |
| ChainModes.DecryptSplit | src/common/rijndael.cpp:1318-1355 | the same for deciphering |
| ChainModes.CallsAreOneCall | src/common/rijndael.cpp:1280-1355 | any sequence of calls gives the bytes of one call on the whole data, in both directions |
| ChainModes.EncryptIntoIs | src/common/rijndael.cpp:1280-1316 | with two buffers, and in ECB and CBC over its own input too, what the class writes is the mode |
| ChainModes.DecryptIntoIs | src/common/rijndael.cpp:1318-1355 | deciphering with two buffers, and in ECB over its own input too, is the mode |
| ChainModes.EncryptIntoRight | src/common/rijndael.cpp:1280-1316 | over its own input enciphering is right in ECB and CBC, and in CFB if and only if the message is the chain enciphered and then zeros enciphered, block by block |
| ChainModes.FeedbackIntoZeros | src/common/rijndael.cpp:1299-1307 | cipher feedback over its own input gives zeros, both ways |
| ChainModes.DecryptIntoRight | src/common/rijndael.cpp:1318-1355 | over its own input deciphering is right in ECB; in CBC if and only if each block but the last deciphers to itself plus the block before it; in CFB if and only if each block is the one before it enciphered |
| ChainModes.FeedbackIntoLoses | src/common/rijndael.cpp:1299-1346 | for every cipher and chain CFB over its own input is wrong on some message of one block, in both directions |
| ChainModes.ChainingIntoLoses | src/common/rijndael.cpp:1328-1336 | for every cipher and chain deciphering in CBC over its own input is wrong on some message of three blocks |
| CRijndaelClass.RconEntryIsRcon | src/common/rijndael.cpp:888-894 | the thirty entries are the successive doublings of 1 in GF(2^8) |
| CRijndaelClass.GroupsFit | src/common/rijndael.cpp:996-1003 | no key and block size reads the round constants past entry 29 |
| CRijndaelClass.RowsMove | src/common/rijndael.cpp:896-915 | the rows move 1, 2 and 3 columns to the left, and 1, 3 and 4 in blocks of eight columns |
| CRijndaelClass.RoundsAre | src/common/rijndael.cpp:955-968 | six rounds more than the longer of key and block has words |
| CRijndaelClass.CRijndael.MakeKey | src/common/rijndael.cpp:942-1034 | errors in the order of the source and nothing changed by them; else both chains set and both schedules those of the key |
| CRijndaelClass.CRijndael.ExpandKey | src/common/rijndael.cpp:989-1023 | the loop over groups of words fills both schedules, the second in reverse, with the expanded key of FIPS 197 |
| CRijndaelClass.CRijndael.MixDecryptionKeys | src/common/rijndael.cpp:1024-1032 | the inner rounds of the second schedule are put through the key tables, the outer two kept |
| CRijndaelClass.CRijndael.GeneralBlock | src/common/rijndael.cpp:1198-1230 | the general loops compute the table cipher of the schedule, for every block size and direction |
| CRijndaelClass.CRijndael.UnrolledBlock | src/common/rijndael.cpp:1041-1184 | the unrolled 128-bit routines compute the same table cipher |
| CRijndaelClass.CRijndael.CryptBlock | src/common/rijndael.cpp:1190-1278 | refuses before key set-up; else one function of key and block, whichever routine runs |
| CRijndaelClass.CRijndael.Xor | src/common/rijndael.h:93-99 | adds one block in place and leaves the rest, also when the block is added to itself |
| CRijndaelClass.CRijndael.Encrypt | src/common/rijndael.cpp:1280-1316 | the error cases, and else the mode over all blocks with the chain left at the last ciphertext block, whether or not the result overwrites the input |
| CRijndaelClass.CRijndael.Decrypt | src/common/rijndael.cpp:1318-1355 | the same for deciphering; the chain is the last ciphertext block, or what has overwritten it |
| CRijndaelClass.CRijndael.ResetChain | src/common/rijndael.h:155-158 | the chain is again the one given with the key |
| CRijndaelClass.BlockComesBack | src/common/rijndael.cpp:1190-1278 | a block with at most one bad round comes back from the class if and only if it has none |
| CRijndaelClass.SomeBlockIsLost | src/common/rijndael.cpp:1190-1278 | under every key and block size some block does not come back |
| CRijndaelClass.ModesRoundTrip | src/common/rijndael.cpp:1280-1355 | for every key and block size: CFB is undone; ECB and CBC if and only if every block given to the cipher comes back |
| CRijndaelClass.ModesUndone | src/common/rijndael.cpp:1280-1355 | ECB and CBC are undone when no block given to the cipher has a bad round, and are not when one of them has just one |
| CRijndaelClass.ModesUndoneExactly | src/common/rijndael.cpp:1280-1355 | with at most one bad round in each block given to the cipher, ECB and CBC are undone if and only if there is none |
| CRijndaelClass.SomeMessageIsLost | src/common/rijndael.cpp:1280-1355 | under every key and from every chain ECB and CBC lose some one-block message |
| KnownCiphers.ClassVector128 | src/common/rijndael.cpp:1190-1231 | under the key of section C.1 the class gives the published ciphertext |
| KnownCiphers.ClassVector256 | src/common/rijndael.cpp:1190-1231 | under the key of section C.3 of FIPS 197 the class gives another ciphertext than the published one; both are stated |
| Aes.AesState.KeyExpansion | src/common/vscp-aes.c:243-312 | fills the whole buffer of 16(Nr+1) bytes with the schedule of the key |
| KnownCiphers.Words128 | src/common/vscp-aes.c:243-312 | words 4 and 5 of section A.1 |
| KnownCiphers.Words192 | src/common/vscp-aes.c:243-312 | words 6 to 10 of section A.2 |
| KnownCiphers.Words256 | src/common/vscp-aes.c:243-312 | words 8 to 12 of section A.3 of FIPS 197, the second substitution included |
| VectorC1.C1Schedule | src/common/vscp-aes.c:243-312 | the key of section C.1 expands to its 44 published words |
| VectorC3.C3Schedule | src/common/vscp-aes.c:243-312 | the same for the 60 words of section C.3 |
| Aes.AesState.AddRoundKey | src/common/vscp-aes.c:316-326 | adds round key r to the state, in place, nothing else changed |
| Aes.AesState.SubBytes | src/common/vscp-aes.c:330-340 | substitutes every byte of the state |
| Aes.AesState.InvSubBytes | src/common/vscp-aes.c:438-448 | the inverse substitution |
| Aes.AesState.ShiftRows | src/common/vscp-aes.c:345-371 | the assignments through temporaries rotate row r by r places |
| Aes.AesState.InvShiftRows | src/common/vscp-aes.c:450-476 | and back |
| Aes.AesState.MixColumns | src/common/vscp-aes.c:379-392 | the doubling form computes the circulant product |
| Aes.AesState.InvMixColumns | src/common/vscp-aes.c:417-433 | the inverse product |
| Aes.AesState.Cipher | src/common/vscp-aes.c:480-503 | the state becomes its encipherment under FIPS 197 |
| Aes.AesState.InvCipher | src/common/vscp-aes.c:505-528 | the state becomes its decipherment |
| Aes.DecipheringInverts | src/common/vscp-aes.c:480-528 | deciphering undoes enciphering on every block |
| VectorC1.C1Run | src/common/vscp-aes.c:480-503 | the cipher goes through the published states of section C.1 to the published ciphertext |
| VectorC3.C3Run | src/common/vscp-aes.c:480-503 | the same for section C.3 |
| KnownCiphers.AesVector128 | src/common/vscp-aes.c:480-503 | AES gives the ciphertext of section C.1 of FIPS 197 |
| KnownCiphers.AesVector256 | src/common/vscp-aes.c:480-503 | AES gives the ciphertext of section C.3 of FIPS 197 |
| Aes.CbcRoundTrip | src/common/vscp-aes.c:596-686 | for the three key sizes, every key, initial vector and whole number of blocks, deciphering gives the plaintext back |
| Aes.XorWithIv | src/common/vscp-aes.c:587-594 | adds the vector to one block in place |
| Aes.CbcEncryptBuffer | src/common/vscp-aes.c:596-640 | output is the CBC encipherment of the original input; input keeps each block added to the chain before it |
| Aes.CbcDecryptBuffer | src/common/vscp-aes.c:642-686 | output is the CBC decipherment, input unchanged |
| JulianDay.YmdToJdInteger | src/common/date.cpp:75-99 | the truncated products of decimals are whole-number divisions |
| JulianDay.JdToYmdInteger | src/common/date.cpp:135-157 | and so is the inverse from day 0 on |
| JulianDay.DateRoundTrip | src/common/date.cpp:75-157 | a date whose number is not negative comes back from it |
| JulianDay.EveryDay | src/common/date.cpp:75-157 | every number from 0 on gives a date of the calendar, and that date gives the number |
| JulianDay.SuccessorDay | src/common/date.cpp:75-99 | the next day of the calendar has the next number, for every date, over the switch and the missing year too |
| JulianDay.NextDayNumber | src/common/date.cpp:135-157 | the date of the next number is the next day of the calendar |
| JulianDay.SwitchDay | src/common/date.cpp:92-95 | the test of the source for the Gregorian rule is day 2299161 and later |
| JulianDay.LeapYears | src/common/date.h:118-124 | IsLeapYear is the four-year rule to 1582 and the rule of 4, 100 and 400 after, for every year |
| AlternateDay.DateRoundTrip | src/common/date.cpp:100-177 | the alternate conversion gives Gregorian dates back |
| AlternateDay.EveryDay | src/common/date.cpp:100-177 | every number from 0 on gives a Gregorian date that gives the number |
| AlternateDay.NextDayNumber | src/common/date.cpp:158-177 | the date of the next number is the next day |
| AlternateDay.MethodsAgree | src/common/date.cpp:135-177 | both conversions give the same date from day 2299161 on |
| AlternateDay.MethodsAgreeOnDates | src/common/date.cpp:75-113 | and the same number for every date from 15 October 1582 on |
| DateClass.WeekGoesOn | src/common/date.h:283-290 | the weekday advances by one with every day of the calendar, through October 1582 too |
| DateClass.KnownDays | src/common/date.h:283-290 | 4 October 1582 is a Thursday and 1 January 2000 a Saturday |
| DateClass.DayOfYearCounts | src/common/date.cpp:220-228 | DayOfYear is 1 on 1 January and one more on each other day |
| DateClass.Date.constructor | src/common/date.h:141-144 | a new date is 1 January 4713 BC |
| DateClass.Date.FromDayMonthYear | src/common/date.h:220-223 | a date built from its parts reads back as those parts |
| DateClass.Date.Increment | src/common/date.h:372-382 | the date becomes the next day of the calendar |
| DateClass.Date.Decrement | src/common/date.h:383-393 | the date becomes the day before |
| DateClass.Date.AddAssign | src/common/date.h:334-338 | adding days steps that many days through the calendar, either way |
| DateClass.Date.SubtractAssign | src/common/date.h:351-355 | subtracting steps back |
| DateClass.Date.Minus | src/common/date.h:356-359 | the difference is the number of steps from one date to the other |
| CountedTree.TreeIncreasing | src/common/sqlite3math.c:1900-1908 | what iteration meets is strictly increasing, with positive counts |
| CountedTree.NodeInsert | src/common/sqlite3math.c:1874-1894 | a valid tree stays valid and holds one more occurrence of the value |
| CountedTree.InsertLeft | src/common/sqlite3math.c:1887-1889 | inserting below the left link keeps the node a valid tree |
| CountedTree.InsertRight | src/common/sqlite3math.c:1890-1892 | the same on the right |
| CountedTree.Map.Insert | src/common/sqlite3math.c:1896-1898 | the multiset of a map grows by the value |
| OrderStatistics.NodeIterate | src/common/sqlite3math.c:1900-1912 | the recursive walk applies the callback to the entries from left to right |
| OrderStatistics.SortedIsUnique | src/common/sqlite3math.c:1900-1908 | there is one way to put values in order, so the results do not depend on the shape of the tree |
| OrderStatistics.Multiplicity | src/common/sqlite3math.c:1884-1886 | a node's count is how often its value was inserted |
| OrderStatistics.QuantileFound | src/common/sqlite3math.c:1500-1532 | the pass finds sorted[(nk-1)/4] and sorted[nk/4], and stopping early loses neither, if their counts fit an int; else it has the lower value alone when its counts fit, and no result when they do not |
| OrderStatistics.FewAreCounted | src/common/sqlite3math.c:1500-1532 | of fewer than 2^31 values all counts fit |
| OrderStatistics.CopiesAreNot | src/common/sqlite3math.c:1500-1532 | the counts of 2^31 copies of one value, or more, do not fit |
| OrderStatistics.MedianPlaces | src/common/sqlite3math.c:1579-1586 | for the median these are sorted[(n-1)/2] and sorted[n/2] |
| OrderStatistics.QuantileIsTrue | src/common/sqlite3math.c:1522-1523 | the quantile of the values read through int* is that of the values if and only if the one selected value fits 32 bits, or the wraps of the two cancel |
| OrderStatistics.ResultIsTrue | src/common/sqlite3math.c:1500-1574 | what the pass gives is the quantile if and only if the counts fit, and the true one if and only if the selected values are also read as themselves |
| OrderStatistics.WrapsCancel | src/common/sqlite3math.c:1522-1523 | the median of two values that do not fit can be right |
| OrderStatistics.ModeFound | src/common/sqlite3math.c:1467-1493 | the pass ends with one candidate if and only if one value is strictly the most frequent, and then has it |
| OrderStatistics.WordIsLost | src/common/sqlite3math.c:1522-1523 | the median of 4294967296 alone is 0 |
| OrderStatistics.ModeCtx.Step | src/common/sqlite3math.c:1419-1461 | a null changes nothing, an integer is counted and inserted |
| OrderStatistics.ModeCtx.ModeIterate | src/common/sqlite3math.c:1467-1493 | one entry of the mode pass |
| OrderStatistics.ModeCtx.MedianIterate | src/common/sqlite3math.c:1500-1532 | one entry of the percentile pass, with its conversions to int |
| OrderStatistics.ModeCtx.ModeFinalize | src/common/sqlite3math.c:1537-1552 | a result if and only if the values given have a mode; then the int reading of the mode, which is the mode if and only if it fits 32 bits |
| OrderStatistics.ModeCtx.PercentileFound | src/common/sqlite3math.c:1557-1574 | the pass over the tree gives the quantile of the values put in order if and only if the counts fit, else the lower value or nothing, and the true one if and only if it is also read as itself |
| OrderStatistics.ModeCtx.MedianFinalize | src/common/sqlite3math.c:1579-1586 | none without values; else the median, if and only if the counts fit, of the values themselves if and only if they are also read as themselves |
| OrderStatistics.ModeCtx.LowerQuartileFinalize | src/common/sqlite3math.c:1591-1598 | the same for the lower quartile |
| OrderStatistics.ModeCtx.UpperQuartileFinalize | src/common/sqlite3math.c:1603-1610 | the same for the upper quartile |
| BlockStream.MoreBytes | src/common/sha-1.c:270-282 | bytes put after the tail either lengthen it or complete a block and empty it |
| BlockStream.GapSplit | src/common/sha-1.c:235-246 | the zeros of the padding end in this block when eight bytes are left after the one bit, else in the next |
| Sha1.RingTurns | src/common/sha-1.c:172-177 | the places (s+13), (s+8), (s+2) and s modulo 16 hold the words 3, 8, 14 and 16 back, and the overwritten ring holds the last 16 words again |
| Sha1.Turn | src/common/sha-1.c:172-177 | one overwriting of the ring makes the next word of the schedule |
| Sha1.RunRounds | src/common/sha-1.c:170-202 | the four loops over the ring compute the 80 rounds over the schedule (sections 7 and 8 of FIPS 180-1) |
| Sha1.Sha1Ctxt.LoadWords | src/common/sha-1.c:134-166 | the bytes of a block are its first 16 words, highest byte first |
| Sha1.Sha1Ctxt.Step | src/common/sha-1.c:128-212 | the five words become the compression of the block, and the block is cleared |
| Sha1.Sha1Ctxt.constructor | src/common/sha-1.c:216-225 | a new context has taken the empty message |
| Sha1.Sha1Ctxt.Loop | src/common/sha-1.c:261-284 | a call of any length adds its bytes to the message; the state depends on the message alone |
| Sha1.Sha1Ctxt.PutPad | src/common/sha-1.c:118-124 | one byte more, and a step when it completes the block |
| Sha1.Sha1Ctxt.Pad | src/common/sha-1.c:227-259 | in all three cases what has been taken is the message padded as section 4 of FIPS 180-1 says |
| Sha1.Sha1Ctxt.Result | src/common/sha-1.c:286-307 | writes the digest of the message, however it was cut into calls |
| Sha1.SHA1 | src/common/sha-1.c:313-323 | the digest of n bytes at once |
| Sha1Abc.ConstantsAreRoots | src/common/sha-1.c:94-95 | the constant of each round is the whole part of 2^30 times the root of 2, 3, 5 or 10 |
| Sha1Abc.DigestOfAbc | src/common/sha-1.c:128-212 | SHA-1 of "abc" is the published digest, through all 80 rounds |
| Md5.Quartet | src/common/vscpmd5.c:214-239 | four operations bring the registers back to their places |
| Md5.Round1 | src/common/vscpmd5.c:214-236 | the sixteen operations written out are operations 1 to 16 |
| Md5.Round2 | src/common/vscpmd5.c:238-263 | operations 17 to 32, with their word order |
| Md5.Round3 | src/common/vscpmd5.c:265-290 | operations 33 to 48 |
| Md5.Round4 | src/common/vscpmd5.c:292-317 | operations 49 to 64 |
| Md5.CountAdds | src/common/vscpmd5.c:358-363 | the two words and the carry test count 8 times the length modulo 2^64 |
| Md5.Offset | src/common/vscpmd5.c:351 | the low word alone gives the place in the block |
| Md5.Md5State.Process | src/common/vscpmd5.c:135-326 | the four words become the compression of the 64 bytes |
| Md5.Md5State.constructor | src/common/vscpmd5.c:332-340 | a new state has taken the empty message |
| Md5.Md5State.AddCount | src/common/vscpmd5.c:358-363 | the count follows the length |
| Md5.Md5State.Append | src/common/vscpmd5.c:346-392 | a call of any length adds its bytes to the message; the state depends on the message alone |
| Md5.Md5State.AppendBlocks | src/common/vscpmd5.c:365-391 | the begun block, the whole blocks and the rest leave the words over all whole blocks and the tail in the buffer |
| Md5.PadCount | src/common/vscpmd5.c:416 | the pad ends 56 bytes into a block, and at least one byte is padded |
| Md5.Md5State.SaveLength | src/common/vscpmd5.c:411-413 | the eight bytes are the length, lowest first |
| Md5.Md5State.Finish | src/common/vscpmd5.c:398-423 | writes the digest of the message, padded as sections 3.1 and 3.2 of RFC 1321 say |
| Md5Abc.DigestOfAbc | src/common/vscpmd5.c:135-326 | MD5 of "abc" is the published digest (section A.5 of RFC 1321), through all 64 operations |
| MustacheParser.ParseSetDelimiterTag | src/common/mustache.hpp:814-837 | delimiters that are set are not empty and hold no space or equals sign |
| MustacheParser.SpaceIsInside | src/common/mustache.hpp:820-829 | in the trimmed text something other than spaces follows every space, so the second delimiter is always found |
| MustacheParser.SpacesAre | src/common/mustache.hpp:50-60 | white space is the characters 9 to 13 and 32 |
| MustacheParser.Find | src/common/mustache.hpp:735 | the first place where the text stands, or none |
| MustacheParser.TagAt | src/common/mustache.hpp:724-764 | a closed tag ends after it begins and within the input, so the parser always gets on |
| MustacheParser.TokensTile | src/common/mustache.hpp:688-764 | the tokens are the one way to tile the input: side by side from 0 to the end or the error, each tag read with the delimiters then set, each text as long as it goes with no tag or white space in it |
| MustacheParser.TreeHoldsTokens | src/common/mustache.hpp:760-783 | read in order, the tree holds exactly the tokens of the input, whatever the sections do |
| MustacheParser.StackIsSummary | src/common/mustache.hpp:766-780 | popping without names, the names that ends must match are those of the open sections exactly while all closed sections end with their own tag |
| MustacheParser.CollapseClosed | src/common/mustache.hpp:785-798 | the check passes if and only if no section is open at the end and every section closed ended with its own tag |
| MustacheParser.ParseSucceeds | src/common/mustache.hpp:655-802 | the parse succeeds if and only if every tag is closed and legal and the sections are balanced with matching names |
| MustacheParser.TreeIsTheOne | src/common/mustache.hpp:766-783 | the nesting ends with all sections closed and a tree if and only if that is the tree with the tokens in order in which every section, and nothing else, ends with an end tag |
| MustacheParser.TemplateIs | src/common/mustache.hpp:655-802 | the parse gives a template if and only if it is what a closed tree of the tokens, its names matching, leaves when the end tags are taken out |
| MustacheParser.Parse | src/common/mustache.hpp:655-802 | the loop ends and gives the template or the first error |
| MustacheParser.CheckSections | src/common/mustache.hpp:785-798 | the walk finds the first unclosed section, outer ones first, and removes the end tags otherwise |
| MustacheRenderer.HtmlEscape | src/common/mustache.hpp:63-88 | replaces the five characters, one after the other |
| MustacheRenderer.UnescapeEscape | src/common/mustache.hpp:63-88 | reading the entities back undoes escaping on every string |
| MustacheRenderer.EscapeIsInjective | src/common/mustache.hpp:63-88 | different strings are escaped differently |
| MustacheRenderer.EscapeEscapes | src/common/mustache.hpp:63-88 | no <, >, double or single quote is left, every & begins one of the five entities, and text without the five characters stays as it is |
| MustacheRenderer.BufferIsLastLine | src/common/mustache.hpp:975-994 | what has gone out and what is buffered are the lines kept and the line begun, for every sequence of pieces |
| MustacheRenderer.LineGoesOut | src/common/mustache.hpp:975-990 | a line with a character other than space and tab, or without a section tag, goes out whole, and a blank one with a section tag leaves no trace |
| MustacheRenderer.Renderer.RenderCurrentLine | src/common/mustache.hpp:975-990 | a blank line with a section tag is dropped, any other goes out with its ending |
| MustacheRenderer.Renderer.WalkChildren | src/common/mustache.hpp:620-643 | components are rendered in order and the stack of data is as before |
| MustacheRenderer.Renderer.RenderComponent | src/common/mustache.hpp:996-1059 | one component renders its pieces and leaves the stack of data as it was |
| MustacheRenderer.Renderer.RenderSection | src/common/mustache.hpp:1133-1166 | the body once for every item of a list in order, else once, between marks; the stack restored |
| MustacheRenderer.ItemsInOrder | src/common/mustache.hpp:1137-1147 | a section over two lists joined renders as over the first and then the second |
| MustacheRenderer.Render | src/common/mustache.hpp:965-973 | the text is the lines of the template's pieces, without blank lines where only sections stood |
| MustacheRenderer.NothingDropped | src/common/mustache.hpp:975-994 | without sections everything goes out as it comes |
| MustacheTags.TagRead | src/common/mustache.hpp:839-877 | for each of the six sigils, a tag with a name is read with that type and name and ends after its delimiter, wherever it stands |
| MustacheTags.VariableRead | src/common/mustache.hpp:839-877 | a tag without a sigil is a variable, wherever it stands |
| MustacheTags.TripleRead | src/common/mustache.hpp:728-735 | three braces make an unescaped variable that ends after three braces |
| MustacheTags.SetDelimiterRead | src/common/mustache.hpp:814-837 | two legal delimiters with spaces between them and white space around are read as those two |
| MustacheTags.ExactlyOneRenders | src/common/mustache.hpp:1010-1027 | of a section and its inverted twin exactly one renders, whatever the data |
| MustacheTags.SectionUnder | src/common/mustache.hpp:1014-1032 | no data, false and the empty list hide a section and show the inverted one; a list with items shows it once for each, anything else once, and hides the inverted one |
| MustacheTags.InnermostWins | src/common/mustache.hpp:458-472 | the innermost data with a name hides the others |
| MustacheTags.SearchGoesOn | src/common/mustache.hpp:463-472 | data without the name lets the search go on outwards |
| MustacheTags.SplitDotted | src/common/mustache.hpp:91-100 | splitting at the dots gives back any parts without dots, save an empty one at the end |
| MustacheTags.DottedName | src/common/mustache.hpp:474-488 | a name of any number of parts is looked up part by part in the innermost data that has the whole path |
| MustacheTemplates.TemplateParsed | src/common/mustache.hpp:655-802 | such a template parses to the tree that its sections make |
| MustacheTemplates.TemplateRenders | src/common/mustache.hpp:655-1166 | a template of texts, variables, comments and nested sections is valid and renders the lines of what its parts put out: sections once, for every item of a list or not at all, without the blank lines where only sections stand |
| MustacheTemplates.SectionRenders | src/common/mustache.hpp:1014-1032 | a section of one line of text, plain or inverted, puts it out as often as the data says, and nothing when it is blank |
| MustacheTemplates.TrueAndFalse | src/common/mustache.hpp:1014-1027 | {{#s}}x{{/s}} gives x under true and nothing under false |
| MustacheTemplates.TemplateFilled | src/common/mustache.hpp:655-1131 | without sections the output is the texts with the values in between, escaped or as they are, nothing for a name without a string |
| MustacheTemplates.PlainTemplate | src/common/mustache.hpp:688-718 | a template without a start delimiter is valid and renders to itself, whatever the data |
| Crc.StepsLinear | src/common/crc.c:155-170 | the division is linear, for every polynomial and number of bits |
| Crc.CcittRemainder | src/common/crc.c:47-80 | each of the 256 fixed entries is the remainder of its byte |
| Crc.ByteAgrees | src/common/crc.c:264-268 | one step by table equals eight by bits, for the table of any polynomial |
| Crc.FixedTableIsTable | src/common/crc.c:47-80 | the fixed table is the one crcInit would fill for CCITT |
| Crc.ReflectedBit | src/common/crc.c:100-124 | reflecting n bits puts bit k of the input at place n - 1 - k and sets no other |
| Crc.Reflect | src/common/crc.c:100-124 | the loop computes that reflection |
| Crc.CrcSlow | src/common/crc.c:137-178 | the CRC by bits of every message, for any polynomial, initial value, reflection and final value |
| Crc.CrcInit | src/common/crc.c:194-235 | fills a table of all remainders |
| Crc.CrcFast | src/common/crc.c:251-273 | by table the same CRC, on every message |
| Crc.ErrorDetected | src/common/crc.c:137-178 | messages that differ only within two adjacent bytes have different CRCs, under every standard with an odd polynomial |
| Crc.BurstDetected | src/common/crc.c:148-170 | so it is for every odd polynomial and initial value |
| Crc.PairsToldApart | src/common/crc.c:148-170 | errors within two bytes are always detected if and only if the polynomial is odd |
| Crc.RemainderOfBits | src/common/crc.c:148-170 | the division byte by byte is the division bit by bit |
| Crc.BurstsDetected | src/common/crc.c:137-178 | messages whose bits differ only within 16 adjacent ones, in the order in which they are taken, have different CRCs under every standard with an odd polynomial |
| Crc.LongBurstIsLost | src/common/crc.c:148-170 | an error of 17 bits in the form of the polynomial leaves the remainder as it is, for every polynomial, start and surrounding message |
| Crc.OwnCrc | src/common/crc.c:137-178 | the CRC of a message followed by its CRC, high byte first, is zero |
| Crc.CheckValue | src/common/crc.h:38-48 | the documented check value of the digits 1 to 9 for CRC-CCITT |
| Crc.CheckValue16 | src/common/crc.h:50-60 | and for CRC-16, with its reflections |
| DlList.DoubleLinkedList.constructor | src/common/dllist.c:54-60 | an empty list |
| DlList.DoubleLinkedList.AddNodeHead | src/common/dllist.c:65-91 | the node is put in front, the list stays well formed, its count right, and keys and objects unchanged |
| DlList.DoubleLinkedList.AddNodeTail | src/common/dllist.c:96-122 | the node is put at the end |
| DlList.DoubleLinkedList.RemoveNode | src/common/dllist.c:285-329 | the node is taken out, the others stay in order, and the count is right even for the last node |
| DlList.DoubleLinkedList.Unlink | src/common/dllist.c:301-317 | the neighbours, or head and tail, point past the node |
| DlList.DoubleLinkedList.GetNodeCount | src/common/dllist.c:334-355 | returns the length, and stores it except for an empty list |
| DlList.DoubleLinkedList.RemoveAllNodes | src/common/dllist.c:361-374 | ends with an empty, unsorted list |
| DlList.DoubleLinkedList.FindNodeFromID | src/common/dllist.c:380-399 | the first node with the key, or none when there is none |
| DlList.DoubleLinkedList.TraversalsMirror | src/common/dllist.c:65-122 | k links from the head and n-1-k from the tail reach the same node |
| Fifo.ByteFifo.constructor | src/common/fifo.c:13-19 | an empty queue over the buffer |
| Fifo.ByteFifo.Read | src/common/fifo.c:28-50 | takes min(nbytes, stored) bytes from the front; what was read is a prefix of what was accepted |
| Fifo.ByteFifo.Write | src/common/fifo.c:59-82 | accepts min(nbytes, size - 1 - stored) bytes at the end |
| Fifo.ByteFifo.GetFree | src/common/fifo.c:93-101 | the size less what is stored, one more than Write accepts |
| Fifo.ByteFifo.FullIsOneLess | src/common/fifo.c:67-70 | the test for a full queue holds exactly when size - 1 bytes are stored |
| Base64.Reverse | src/common/vscpbase64.c:66-89 | a value below 64, 255 for the padding and only for it, or 254 |
| Base64.ReverseLetter | src/common/vscpbase64.c:66-89 | the value of a letter of the alphabet is its place |
| Base64.LetterReverse | src/common/vscpbase64.c:66-89 | only letters of the alphabet have values below 64 |
| Base64.AlphabetIs | src/common/vscpbase64.c:35-60 | the alphabet by the codes of its characters: upper case, lower case, digits, + and / |
| Base64.Encoding | src/common/vscpbase64.c:35-60 | an encoding has 4 times ceil(n/3) characters |
| Base64.SameNumber | src/common/vscpbase64.c:35-60 | three bytes and their four groups of six bits are one number of 24 bits, highest first |
| Base64.SameNumberBack | src/common/vscpbase64.c:95-138 | and decoding reads that number |
| Base64.KnownEncodings | src/common/vscpbase64.c:35-60 | the published encodings of "f", "fo" and "foobar" (section 10 of RFC 4648) |
| Base64.RoundTrip | src/common/vscpbase64.c:35-138 | decoding an encoding returns -1 and gives the bytes back, for every byte string |
| Base64.DecodingIs | src/common/vscpbase64.c:95-138 | for every string: -1 if and only if there are whole quads with letters in the first two places and letters or padding in the last two; else the first place that is not so, or the length; the bytes are those of the whole quads before |
| Base64.Unpadded | src/common/vscpbase64.c:95-138 | without padding decoding succeeds if and only if all characters are letters in whole quads, and every quad before the error gives three bytes |
| Base64.Encode | src/common/vscpbase64.c:35-60 | writes the encoding and a null character |
| Base64.Decode | src/common/vscpbase64.c:95-138 | returns and writes what the specification of decoding says, with its error places |

## Left out

- RijndaelRounds.AtMostOneBadRound: does not say which blocks with two bad rounds or more come back, since both happen: the errors of two rounds can cancel (TwoBadRoundsCancel). Whether they do for round keys that the key set-up makes is not decided.
- Rijndael buffers: an input and a result that overlap without being the same buffer, and either of them overlapping a chain, are not modelled. The exceptions are a result value.
- Rijndael and AES words: the byte and word views of an int are related by packing functions; sign extension in the last round, which only reaches bits that the store drops, is not modelled.
- AES: an output buffer that is the input; lengths that are not a multiple of 16 (the file asks for whole blocks), null keys or vectors, the ECB entry points, which cipher only the first block, getRandomIV, and the pointers by which the state overlays the buffers (a position in the array stands for them).
- Calendar: rounding of floating-point numbers (the constants are exact reals), the width of long, ToString, ToSysTime and the constructors from a string or a system time; negative day numbers, before the calendar the file promises.
- Order statistics: the number of values itself is not bounded by 64 bits; the branch for floating-point values, variance and deviation, freeing of nodes, and big-endian machines, where the other half of a value would be read. Links are passed by value and returned instead of by pointer to pointer.
- SHA-1: the union of bytes and words is an array of bytes and, inside a step, an array of words; big-endian machines.
- MD5: the shortcut for aligned data, the wrapper functions that print digests, and messages of 2^64 bits and more, for which the count is modulo 2^64 as in the source.
- Templates: partials, lambdas, streams, wide strings and custom escape functions; the text of a section kept for lambdas. The parser's pointers into the growing tree are a stack of frames whose innermost section joins its parent when it closes.
- MustacheRenderer.Renderer.RenderComponent: asks for components that are no partial tags and hold none, since partials may render themselves without end.
- MustacheRenderer.Renderer.RenderSection: asks for sections without partial tags, for the same reason.
- MustacheRenderer.Renderer.WalkChildren: asks for components without partial tags.
- MustacheRenderer.Render: asks for templates without partial tags.
- CRC: CRC-32, whose width follows the size of unsigned long.
- Linked list: insertion in the middle and the sorted insertions that reach it (the successor's back link is not set there, so no well-formed list follows), searching by string, and freeing; the place of a node to remove is a ghost argument.
- Base64: negative lengths, which the loops treat as 0.
- Everything else in the repository: sockets, serial ports, threads, configuration, the web server and the graphical programs.
