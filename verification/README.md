# Verified model of the Premium Bank

The repository is a banking system: a multi-threaded C++ backend over an SQL database with an
in-memory mirror, a bcrypt password check, a fraud detector, and a desktop client that draws QR
codes. This project models its three algorithmic parts in Dafny and proves what they promise.

**The QR encoder** (ISO/IEC 18004). `Gf256` proves that the bit loop of the multiplication is
multiplication modulo 0x11D and derives the ring laws from its linearity; `Field` adds inverses from
the powers of 2. `ReedSolomon` shows that the in-place divisor loop and the shift-register loop are
polynomial product and division, and that codewords vanish at the generator's roots; `Distance`
proves how far apart codewords are. `FunctionCells`, `FreeModules`, `Format` and `Patterns` cover
the function patterns and count the cells they leave. `Interleave`, `Zigzag`, `Symbol` and `Penalty`
cover block interleaving, the placement scan, masks, mask choice and the one-pass scorer;
`BitStream`, `QrTables` and `Segments` the packing of text. `QrReader` composes them: a reader that
is given the finished grid and nothing else recovers the encoded text, every block of the grid has
its check bytes, and no other mask would score less. `QrStandard`, `QrExamples` and
`PenaltyExamples` compare what is computed with the tables, the worked examples and the rules of the
standard.

**The bank.** `Bank` says what a request means as one indivisible step and what the log says about
the balances; `BankLog` reads the requests back from it. `BankMemory` models the transaction code
and the mirror as one thread runs them, for every request. `BankProtocol` lets any number of threads
interleave: row locks, uncommitted rows, commit and rollback, account mutexes, and one mirror
movement a step. `BankRuns` proves the invariant of every run, `BankLaws` what it means,
`BankSerial` that every run is explained by a sequential order, `BankDrift` exactly when memory can
drift from the database, `BankProgress` freedom from deadlock and termination, and `BankAlone` that
one thread on its own does what the transaction code does. `CircularQueue` and `RequestQueue` model
the ring, its monitor and the worker pool; `HashTable`, `BankIndex`, `StoreUsers` and
`FraudDetector` the data structures and searches.

**The bcrypt kernel.** `Radix64`, `KeyExpansion`, `Feistel` and `Bcrypt` model the text codec, the
key expansion with its safety measure, the cipher, and the chain of generating, hashing and
checking; `Words` holds the 32-bit arithmetic.

Code that changes things step by step is a method or a class, proved against a specification
function; the lemmas are about those functions. Concurrent code is a state machine with one step for
each statement, lock operation or monitor entry.

Facts of the code that the contracts state as they are:

- `applyMemoryUpdate` ignores the result of `withdrawUnlocked` (backend/include/bank.hpp:78 and 92),
  so memory can drift from the database. `BankDrift.DriftExactly` gives the exact condition on the
  requests, `BankLaws.QuiescentMirror` the one on a run, `BankLaws.OvertakingDrifts` an example.
- A transfer to the same account takes one mutex twice (backend/include/bank.hpp:86-90) and never
  returns; a transfer of a non-positive amount throws with both mutexes held; an exception after the
  commit is answered with false (backend/src/database_loader.cpp:131-137). `BankMemory.Update`
  states this and `BankMemory.AnswerIsGrant` what it comes to. The protocol of many threads is about
  the other requests (`Proper`).
- `RequestQueue::push` returns true when the ring is full (backend/include/request_queue.hpp:155),
  so items are counted when the ring accepts them.

## Model

| member | source | states |
|---|---|---|
| Gf256.Multiply | frontend/Premiumbank/qrcodegen.cpp:739-748 | the loop of shifts and reductions computes the field product `Mul`, whose laws the next rows state |
| Gf256.Distributive | frontend/Premiumbank/qrcodegen.cpp:739-748 | multiplication is linear over exclusive or in each argument |
| Gf256.Exchange | frontend/Premiumbank/qrcodegen.cpp:739-748 | two factors multiplied bit by bit into a third can be exchanged: the step from linearity to commutativity and associativity |
| Gf256.Commutative | frontend/Premiumbank/qrcodegen.cpp:739-748 | x * y = y * x for all bytes |
| Gf256.Associative | frontend/Premiumbank/qrcodegen.cpp:739-748 | (x * y) * z = x * (y * z) for all bytes |
| Gf256.MulOneBothSides | frontend/Premiumbank/qrcodegen.cpp:739-748 | 1 is neutral on both sides |
| Field.RootOrder | frontend/Premiumbank/qrcodegen.cpp:701-748 | no power of 2 with an exponent from 1 to 254 is 1 |
| Field.RootInjective | frontend/Premiumbank/qrcodegen.cpp:701-748 | the first 255 powers of 2 are distinct |
| Field.NonzeroIsRoot | frontend/Premiumbank/qrcodegen.cpp:739-748 | every nonzero byte is a power of 2 |
| Field.InverseExists | frontend/Premiumbank/qrcodegen.cpp:739-748 | every nonzero byte has an inverse |
| Field.NoZeroDivisors | frontend/Premiumbank/qrcodegen.cpp:739-748 | a product is zero exactly if a factor is |
| ReedSolomon.ComputeDivisor | frontend/Premiumbank/qrcodegen.cpp:701-723 | the in-place loop accepts exactly the degrees 1 to 255 and yields the product of (x - 2^0) ... (x - 2^(degree-1)) without its leading 1 |
| ReedSolomon.ComputeRemainder | frontend/Premiumbank/qrcodegen.cpp:726-736 | the shift-register loop computes the remainder, for data of any length |
| ReedSolomon.DivisionIdentity | frontend/Premiumbank/qrcodegen.cpp:726-736 | data followed by the remainder is a polynomial multiple of the monic divisor |
| ReedSolomon.RemainderUnique | frontend/Premiumbank/qrcodegen.cpp:726-736 | no other check bytes of that length make the data a multiple: if and only if |
| ReedSolomon.EvalPolyMul | frontend/Premiumbank/qrcodegen.cpp:701-736 | evaluation takes products of polynomials to products of values |
| ReedSolomon.GeneratorRoots | frontend/Premiumbank/qrcodegen.cpp:701-723 | the generator vanishes at each of its powers of 2 |
| ReedSolomon.CodewordRoots | frontend/Premiumbank/qrcodegen.cpp:701-748 | data and remainder, read as a polynomial, vanish at 2^0 ... 2^(degree-1) |
| ReedSolomon.SingleErrorDetected | frontend/Premiumbank/qrcodegen.cpp:726-736 | the first check value stays zero exactly if a changed byte was not changed |
| Distance.NoLightWords | frontend/Premiumbank/qrcodegen.cpp:701-736 | a word of at most 255 bytes that vanishes at d consecutive powers of 2 has more than d nonzero bytes or none |
| Distance.CodewordsFarApart | frontend/Premiumbank/qrcodegen.cpp:701-736 | two words with zero check values are equal or differ in more places than there are check bytes |
| Distance.ErrorsDetected | frontend/Premiumbank/qrcodegen.cpp:726-736 | a change of up to as many bytes as there are check bytes leaves all check values zero exactly if nothing changed |
| Distance.CorrectionIsUnique | frontend/Premiumbank/qrcodegen.cpp:726-736 | with at most half as many wrong bytes only one codeword is near |
| Interleave.AddEccAndInterleave | frontend/Premiumbank/qrcodegen.cpp:498-533 | rejects exactly the data vectors of the wrong size; otherwise every real byte of every block stands at its place, with the computed divisor |
| Interleave.SplitIntoBlocks | frontend/Premiumbank/qrcodegen.cpp:509-520 | the splitting loop yields every block padded to one length |
| Interleave.InterleaveBlocks | frontend/Premiumbank/qrcodegen.cpp:522-532 | the interleaving loops read the padded blocks row by row without the padding byte |
| Interleave.Totals | frontend/Premiumbank/qrcodegen.cpp:503-531 | the rows hold exactly the raw codewords and the blocks exactly the data |
| Interleave.PlaceInjective | frontend/Premiumbank/qrcodegen.cpp:522-530 | no two real bytes share a place |
| Interleave.PlaceSurjective | frontend/Premiumbank/qrcodegen.cpp:522-530 | every place holds a real byte, never the padding |
| Interleave.CodewordAtPlace | frontend/Premiumbank/qrcodegen.cpp:522-530 | the byte at a place is the byte of the block that belongs there |
| Interleave.PlacesInOrder | frontend/Premiumbank/qrcodegen.cpp:522-530 | the places follow the byte numbers first and the block numbers second |
| Interleave.BlocksInOrder | frontend/Premiumbank/qrcodegen.cpp:503-512 | the blocks are consecutive parts of the data, the short ones first, one byte apart in length |
| Interleave.ReadBlockInverts | frontend/Premiumbank/qrcodegen.cpp:498-533 | de-interleaving gives back every block with its check bytes |
| Interleave.ReadDataInverts | frontend/Premiumbank/qrcodegen.cpp:498-533 | de-interleaving gives back the data vector |
| Interleave.ReadBlockIsCodeword | frontend/Premiumbank/qrcodegen.cpp:498-533 | every block that is read back vanishes at all roots of its generator |
| Zigzag.ScanIsInjective | frontend/Premiumbank/qrcodegen.cpp:542-549 | every step of the scan is inside the symbol, outside column 6, and on a cell of its own |
| Zigzag.ScanIsSurjective | frontend/Premiumbank/qrcodegen.cpp:542-549 | every cell outside column 6 is visited, at the step that is named |
| Zigzag.StepsClosed | frontend/Premiumbank/qrcodegen.cpp:542-546 | the scan has exactly (size - 1) * size steps |
| Zigzag.ScanStarts | frontend/Premiumbank/qrcodegen.cpp:542-549 | the scan of every version starts at the lower right module |
| Zigzag.ScanMoves | frontend/Premiumbank/qrcodegen.cpp:542-549 | each step goes one module left in its pair, or back right and one row up or down, or at the upper or lower edge on to the next pair, which skips column 6 |
| Zigzag.FreeDistinct | frontend/Premiumbank/qrcodegen.cpp:550-552 | no cell is drawn twice |
| Zigzag.FreeComplete | frontend/Premiumbank/qrcodegen.cpp:550-552 | every cell that no function pattern owns is drawn |
| Zigzag.ReadInvertsDraw | frontend/Premiumbank/qrcodegen.cpp:536-560 | reading in scan order returns the drawn codewords bit for bit, remainder bits and function cells are untouched |
| Symbol.QrCode.DrawCodewords | frontend/Premiumbank/qrcodegen.cpp:536-560 | data of the wrong length is refused; otherwise exactly that scan is drawn, from the lower right upwards (`Zigzag.ScanStarts`, `Zigzag.ScanMoves`), and once the function patterns are reserved every bit finds a place |
| Format.StampHolds | frontend/Premiumbank/qrcodegen.cpp:425-439 | after drawing, every format cell holds its bit of the format word |
| Format.FormatReadsBack | frontend/Premiumbank/qrcodegen.cpp:416-440 | a reader of the format cells recovers level and mask |
| Format.FormatWordInjective | frontend/Premiumbank/qrcodegen.cpp:417-423 | different levels or masks have different format words |
| Format.FormatPath | frontend/Premiumbank/qrcodegen.cpp:425-439 | bits 0 to 14 go down column 8 and left along row 8, past the timing lines; the second copy goes left from the right edge and then down to the lower edge |
| QrStandard.FormatWordsAreStandard | frontend/Premiumbank/qrcodegen.cpp:417-423 | the computed format words of all levels and masks are the 32 of the table in ISO/IEC 18004 |
| QrStandard.VersionWordsAreStandard | frontend/Premiumbank/qrcodegen.cpp:447-451 | the computed version words of versions 7 to 40 are those of the table in ISO/IEC 18004 |
| QrStandard.AlignmentAreStandard | frontend/Premiumbank/qrcodegen.cpp:664-676 | the alignment lines of versions 2 to 40 are those of the table in ISO/IEC 18004 |
| FunctionCells.Positions | frontend/Premiumbank/qrcodegen.cpp:664-676 | the alignment lines of every version are even, inside, at least 12 apart, and end at the lower right pattern |
| FreeModules.AlignmentsSize | frontend/Premiumbank/qrcodegen.cpp:399-408 | the alignment patterns cover 25 (m-1)^2 + 40 (m-2) cells outside column 6 and row 6 |
| FreeModules.FreeCount | frontend/Premiumbank/qrcodegen.cpp:679-691 | for every version the closed formula is exactly the number of cells that the function patterns leave to the scan |
| Patterns.AlignmentFits | frontend/Premiumbank/qrcodegen.cpp:399-408 | an alignment pattern meets no finder pattern, format cell or version block, and agrees with the timing patterns it crosses |
| Patterns.AlignmentsApart | frontend/Premiumbank/qrcodegen.cpp:399-408 | two alignment patterns do not meet |
| Patterns.FixedApart | frontend/Premiumbank/qrcodegen.cpp:387-413 | finder patterns, format cells and version blocks keep clear of each other |
| Patterns.PatternProportions | frontend/Premiumbank/qrcodegen.cpp:465-482 | each line through the centre of a finder pattern is dark and light as 1:1:3:1:1 with a light separator, of an alignment pattern as 1:1:1:1:1 |
| Symbol.QrCode.constructor | frontend/Premiumbank/qrcodegen.cpp:328-331 | a blank symbol of the size of its version |
| Symbol.QrCode.DrawFinderPattern | frontend/Premiumbank/qrcodegen.cpp:465-474 | draws the clipped rings, reserves their square, and changes nothing else |
| Symbol.QrCode.DrawAlignmentPattern | frontend/Premiumbank/qrcodegen.cpp:477-482 | the same for the five by five pattern |
| Symbol.QrCode.GetAlignmentPatternPositions | frontend/Premiumbank/qrcodegen.cpp:664-676 | the insertion loop yields the closed form of the positions |
| Symbol.QrCode.DrawVersion | frontend/Premiumbank/qrcodegen.cpp:443-462 | both version blocks from version 7 on hold the bits of the version word, and nothing else changes |
| Symbol.QrCode.DrawFunctionPatterns | frontend/Premiumbank/qrcodegen.cpp:387-413 | afterwards every pattern stands undamaged by those drawn later, and exactly the function cells are reserved |
| Symbol.MaskInvolution | frontend/Premiumbank/qrcodegen.cpp:563-584 | masking twice with one mask restores the grid |
| QrStandard.MasksAreStandard | frontend/Premiumbank/qrcodegen.cpp:568-579 | the eight conditions invert exactly the cells of the eight drawn pictures, 12 by 12 modules repeated in both directions |
| Symbol.QrCode.ApplyMask | frontend/Premiumbank/qrcodegen.cpp:563-584 | accepts exactly 0 to 7 and inverts exactly the data cells of the pattern |
| Symbol.QrCode.SetFunctionModule | frontend/Premiumbank/qrcodegen.cpp:485-490 | sets one cell and reserves it |
| Symbol.QrCode.DrawFormatBits | frontend/Premiumbank/qrcodegen.cpp:416-440 | draws the two copies of the format word and reserves exactly the format cells in addition |
| Symbol.CandidateIgnoresFormat | frontend/Premiumbank/qrcodegen.cpp:338-355 | a trial depends on nothing that earlier trials left behind |
| Symbol.CandidateUnmasks | frontend/Premiumbank/qrcodegen.cpp:338-355 | undoing a trial restores all cells other than format cells |
| Symbol.CandidateKeepsFunctions | frontend/Premiumbank/qrcodegen.cpp:338-355 | function patterns outside the format cells are the same in every candidate |
| Symbol.QrCode.ChooseMask | frontend/Premiumbank/qrcodegen.cpp:338-355 | ends on the requested candidate, or on the first of the eight with the least penalty |
| Symbol.FinishedSymbolReadsBack | frontend/Premiumbank/qrcodegen.cpp:334-355 | unmasking the finished symbol and reading it in scan order returns the drawn codewords |
| Penalty.ExpandRuns | frontend/Premiumbank/qrcodegen.cpp:590-632 | the run lengths determine the line |
| Penalty.RunsOfExpand | frontend/Premiumbank/qrcodegen.cpp:590-632 | the runs are the only decomposition into maximal runs |
| Penalty.BorderedRuns | frontend/Premiumbank/qrcodegen.cpp:760-776 | closing the runs with light borders is running the line extended by `size` light modules at both ends |
| Penalty.AddHistory | frontend/Premiumbank/qrcodegen.cpp:771-776 | the seven entries are the last seven runs, the border included |
| Penalty.CountPatterns | frontend/Premiumbank/qrcodegen.cpp:751-757 | the count is the number of 1:1:3:1:1 patterns that the last run completes |
| Penalty.TerminateAndCount | frontend/Premiumbank/qrcodegen.cpp:760-768 | the end of the line completes the count for the bordered line |
| Penalty.ScoreLine | frontend/Premiumbank/qrcodegen.cpp:590-632 | one pass over a line adds 3 + (len - 5) for each maximal run of at least 5 and 40 for each finder-like pattern of the bordered line |
| Penalty.ScoreBlocks | frontend/Premiumbank/qrcodegen.cpp:634-645 | 3 for each 2 by 2 block of one colour |
| Penalty.CountDark | frontend/Premiumbank/qrcodegen.cpp:647-653 | the number of dark modules |
| Penalty.GetPenaltyScore | frontend/Premiumbank/qrcodegen.cpp:587-661 | the four parts for all rows, columns, blocks and the balance |
| Penalty.BalanceIsLeast | frontend/Premiumbank/qrcodegen.cpp:654-658 | for every odd total the formula is the least k with dark/total within (45-5k)% and (55+5k)%, and k is at most 9 |
| Penalty.FindersBound | frontend/Premiumbank/qrcodegen.cpp:751-757 | two finder-like patterns need four inner modules of their own |
| Penalty.ScoreRange | frontend/Premiumbank/qrcodegen.cpp:659-660 | the score of every symbol is within the range that the code asserts |
| PenaltyExamples.WindowLaw | frontend/Premiumbank/qrcodegen.cpp:751-757 | a window counts only in the proportions 1:1:3:1:1, once for each side with four light units there and one on the other |
| PenaltyExamples.FinderLine | frontend/Premiumbank/qrcodegen.cpp:590-632 | a line that holds the pattern once between light runs of four scores 80 |
| PenaltyExamples.UniformLaw | frontend/Premiumbank/qrcodegen.cpp:634-645 | a block scores exactly if its four modules have one colour |
| PenaltyExamples.PlainSymbol | frontend/Premiumbank/qrcodegen.cpp:587-661 | the total for a symbol of one colour of every size, light or dark, written out: it fixes the weights of runs, blocks and balance |
| BitStream.BitBuffer.AppendBits | frontend/Premiumbank/qrcodegen.cpp:822-827 | appends the value most significant bit first exactly if it fits, and changes nothing otherwise |
| BitStream.ValueOfBits | frontend/Premiumbank/qrcodegen.cpp:822-827 | the appended bits read as the value |
| BitStream.BitsOfShifts | frontend/Premiumbank/qrcodegen.cpp:822-827 | the shift loop yields the digits of the value |
| BitStream.UnpackPack | frontend/Premiumbank/qrcodegen.cpp:79-122 | reading groups of digits back inverts packing them, for every base and group size in use |
| BitStream.PackAppend | frontend/Premiumbank/qrcodegen.cpp:79-122 | packing works group by group, so the accumulator loops can stop anywhere |
| QrTables.TableRelations | frontend/Premiumbank/qrcodegen.cpp:792-808 | for all 40 versions the tables give a layout with whole blocks, a data size that is the capacity, and falling capacities |
| QrTables.CapacityFalls | frontend/Premiumbank/qrcodegen.cpp:694-698 | a higher level never has more data codewords |
| QrStandard.CapacitiesAreStandard | frontend/Premiumbank/qrcodegen.cpp:792-808 | the data codewords of all versions and levels are the 160 of the table in ISO/IEC 18004 |
| Segments.MakeNumeric | frontend/Premiumbank/qrcodegen.cpp:79-99 | succeeds exactly on digits and yields the packed segment |
| Segments.MakeAlphanumeric | frontend/Premiumbank/qrcodegen.cpp:102-122 | succeeds exactly on the 45 characters and yields the packed segment |
| Segments.MakeBytes | frontend/Premiumbank/qrcodegen.cpp:69-76 | succeeds exactly up to the integer limit and yields the packed segment |
| Segments.ContentOfSymbols | frontend/Premiumbank/qrcodegen.cpp:79-122 | the digit values of a text determine it |
| Segments.GetTotalBits | frontend/Premiumbank/qrcodegen.cpp:179-193 | the exact length of the bit stream, or none if a count or the sum does not fit |
| Segments.ReadStream | frontend/Premiumbank/qrcodegen.cpp:290-296 | a reader recovers mode, count and text of every segment of every stream |
| QrExamples.ModesAreStandard | frontend/Premiumbank/qrcodegen.cpp:44-64 | mode indicators and widths of the count for each version range |
| QrExamples.CharactersAreStandard | frontend/Premiumbank/qrcodegen.cpp:108-111 | the value of each of the 45 characters is its place in the standard order |
| QrExamples.DigitsExample | frontend/Premiumbank/qrcodegen.cpp:79-99 | the example of ISO/IEC 18004 for digits: 01234567 as 41 bits |
| QrExamples.CharactersExample | frontend/Premiumbank/qrcodegen.cpp:102-122 | the example of ISO/IEC 18004 for characters: AC-42 as 41 bits |
| QrExamples.CodewordsExample | frontend/Premiumbank/qrcodegen.cpp:290-313 | the first example with terminator and pad bytes: the 16 codewords of a symbol of version 1, level Medium |
| QrExamples.CodewordBitsInOrder | frontend/Premiumbank/qrcodegen.cpp:551-551 | each codeword is drawn with its highest bit first |
| Segments.PaddedStreamReadsBack | frontend/Premiumbank/qrcodegen.cpp:290-308 | terminator and padding fill the capacity exactly and do not disturb the reader |
| Segments.FindVersion | frontend/Premiumbank/qrcodegen.cpp:264-281 | the least version that fits, or failure exactly if none does |
| Segments.BoostLevel | frontend/Premiumbank/qrcodegen.cpp:284-288 | the level is never lowered and, if boosting, the highest that fits |
| Segments.BuildStream | frontend/Premiumbank/qrcodegen.cpp:290-308 | concatenation, terminator and alternating pad bytes |
| Segments.PackBytes | frontend/Premiumbank/qrcodegen.cpp:310-313 | the bits of the codewords are the bits of the stream |
| Segments.EncodeSegments | frontend/Premiumbank/qrcodegen.cpp:259-316 | the argument checks, the least version, the boosted level and codewords of exactly that capacity that hold the stream |
| Segments.EncodedReadsBack | frontend/Premiumbank/qrcodegen.cpp:259-316 | a reader of the codewords recovers every segment |
| QrReader.BytesOfCodewords | frontend/Premiumbank/qrcodegen.cpp:536-560 | assembling bytes inverts taking their bits |
| QrReader.RoomForCodewords | frontend/Premiumbank/qrcodegen.cpp:498-560 | the drawn function patterns of every version leave room for all codewords of every level |
| QrReader.SymbolReadsBack | frontend/Premiumbank/qrcodegen.cpp:259-359 | a reader that is given the grid alone takes version, level and mask from it, unmasks, reads in scan order, de-interleaves and parses, and finds the encoded contents |
| QrReader.BlockIsCorrectable | frontend/Premiumbank/qrcodegen.cpp:498-533 | in every symbol a block with at most half as many wrong bytes as check bytes is near to no codeword but the true one |
| QrReader.PatternsStay | frontend/Premiumbank/qrcodegen.cpp:334-355 | drawing data and masking leave every function pattern as it was |
| QrReader.ReceivedCodewords | frontend/Premiumbank/qrcodegen.cpp:334-355 | the codewords that a reader takes from the finished grid are those that were drawn, whatever mask was chosen |
| QrReader.DataReceived | frontend/Premiumbank/qrcodegen.cpp:334-355 | de-interleaved, they are the data codewords the symbol was made from |
| QrReader.FinishedChecks | frontend/Premiumbank/qrcodegen.cpp:334-355 | every block read from the finished grid vanishes at all roots of its generator: the check bytes that are drawn are those of the data |
| QrReader.RemaskedCandidate | frontend/Premiumbank/qrcodegen.cpp:338-355 | undoing the mask of a finished grid, applying another and restamping its word gives the candidate of that mask |
| QrReader.BestCandidate | frontend/Premiumbank/qrcodegen.cpp:338-355 | on the finished grid: no other mask, applied in its place, scores less, and the lower-numbered ones score more |
| QrReader.BuildSymbol | frontend/Premiumbank/qrcodegen.cpp:320-359 | the constructor with its checks: the finished grid has all its patterns, the data with check bytes that vanish, the requested mask or for -1 the one of least penalty, and reads back to whatever contents the codewords encode |
| QrReader.EncodeToSymbol | frontend/Premiumbank/qrcodegen.cpp:259-317 | from segments to a symbol: failure exactly for bad arguments and contents that fit no version; otherwise the least version, the boosted level, the requested or best mask, data and check bytes of the padded stream, and a grid that reads back to the segments |
| Radix64.BfEncode | backend/src/crypt_blowfish.c:409-439 | the pointer loop stores exactly the text of the bytes and nothing else |
| Radix64.BfDecode | backend/src/crypt_blowfish.c:385-407 | fails exactly if a needed character is not in the alphabet, and else yields the decoded bytes |
| Radix64.DecodeEncode | backend/src/crypt_blowfish.c:385-439 | decoding inverts encoding at every size |
| Radix64.EncodeDecode | backend/src/crypt_blowfish.c:385-439 | encoding a decoded text gives its canonical form |
| Radix64.CanonicalDecodesAlike | backend/src/crypt_blowfish.c:768-770 | the dropped bits cannot be seen by the decoder, and the canonical form is a fixed point |
| Radix64.AlphabetInOrder | backend/src/crypt_blowfish.c:364-365 | the 64 characters in their order |
| Radix64.ValuesOfAlphabet | backend/src/crypt_blowfish.c:367-374 | a character has a value exactly if it is one of the 64 |
| Radix64.GroupIsBase64 | backend/src/crypt_blowfish.c:409-439 | the characters of a group are the digits in base 64 of its bytes, the highest first, shorter groups filled up with zeros |
| KeyExpansion.BfSetKey | backend/src/crypt_blowfish.c:543-643 | `expanded` holds the big-endian words of the cyclic key (sign-extended on request), `initial` the same over the standard subkeys, bit 16 flipped exactly on a collision when safety is requested |
| KeyExpansion.WordValue | backend/src/crypt_blowfish.c:592-595 | four bytes as a number in base 256, the first the highest |
| KeyExpansion.SignedValue | backend/src/crypt_blowfish.c:596-597 | with sign extension the last byte above 0x7F, the first one aside, turns all higher bits to ones |
| KeyExpansion.CursorIsModulo | backend/src/crypt_blowfish.c:605-608 | the wrapping pointer walks the key with its terminator cyclically |
| KeyExpansion.MasksAreConditional | backend/src/crypt_blowfish.c:625-629 | the branch-free masks are the conditional |
| KeyExpansion.AgreeOnBytes | backend/src/crypt_blowfish.c:592-610 | the two expansions of a block agree exactly if every sign extension overwrites only ones |
| KeyExpansion.CollisionExactly | backend/src/crypt_blowfish.c:616-629 | a collision is exactly: a sign extension was seen and all of them are benign |
| KeyExpansion.SelfTestPasses | backend/src/crypt_blowfish.c:860-869 | what the self-test compares is what the modelled expansion computes |
| KeyExpansion.CollisionNeedsFF | backend/src/crypt_blowfish.c:559-565 | only passwords that hold the byte 0xFF are affected, as the comment promises |
| Feistel.BfRound | backend/src/crypt_blowfish.c:476-493 | the shifts, masks and table reads of one round compute `Round` |
| Feistel.RoundFunction | backend/src/crypt_blowfish.c:476-493 | in bytes: (S0[highest] + S1[second]) exclusive or S2[third], plus S3[lowest], for all boxes |
| Feistel.RoundOfOneBox | backend/src/crypt_blowfish.c:476-493 | with three boxes zero a round changes R by exclusive or with the subkey and the entry of the fourth box at its own byte |
| Feistel.SubkeyPlaces | backend/src/crypt_blowfish.c:498-518 | a known answer for boxes that only turn the word: each of the 18 subkeys enters where it belongs, and the halves are exchanged at the end |
| Feistel.BfEncrypt | backend/src/crypt_blowfish.c:457-518 | the unrolled rounds compute the cipher that these laws fix |
| Feistel.DecryptInvertsEncrypt | backend/src/crypt_blowfish.c:457-518 | encryption under the reversed subkeys is the inverse |
| Feistel.EncryptIsPermutation | backend/src/crypt_blowfish.c:457-518 | different pairs have different images and every pair is an image |
| Bcrypt.BfCrypt | backend/src/crypt_blowfish.c:649-779 | a short buffer, then a bad setting, are refused with their error and leave the buffer alone; otherwise the terminated hash |
| Bcrypt.FlagTable | backend/src/crypt_blowfish.c:645-647 | a has flag 2, b and y flag 4, x flag 1, and no other character has any |
| Bcrypt.HeaderForm | backend/src/crypt_blowfish.c:675-683 | the accepted headers: dollar, 2, one of those letters, dollar, two digits of at most 31, dollar; the digits are the cost |
| Bcrypt.HashDecodes | backend/src/crypt_blowfish.c:685-776 | the last 31 characters of a hash decode to the kernel bytes for the given password, salt, cost and flags |
| Bcrypt.CanonicalSetting | backend/src/crypt_blowfish.c:675-770 | the setting with its last salt character rewritten is accepted and means the same |
| Bcrypt.HashIsFixpoint | backend/src/crypt_blowfish.c:675-776 | hashing again with the hash as setting reproduces the hash |
| Bcrypt.OutputMagic | backend/src/crypt_blowfish.c:781-794 | the failure string is not a hash and differs from the setting |
| Bcrypt.GensaltBlowfish | backend/src/crypt_blowfish.c:881-907 | succeeds exactly on the accepted arguments and then stores the setting; otherwise ERANGE exactly for a short buffer |
| Bcrypt.SettingAccepted | backend/src/crypt_blowfish.c:881-907 | a generated setting is accepted, has its subtype and cost, and decodes to the random bytes |
| Bcrypt.HashPw | backend/src/bcrypt.c:124-129 | zero exactly if the setting is good and the self-test passes: then the last 31 characters decode to the 23 kernel bytes for this password, salt, cost and flag; otherwise 1 and a string that is not the salt |
| Bcrypt.TimingSafeStrcmp | backend/src/bcrypt.c:71-95 | zero exactly for equal strings |
| Bcrypt.CheckPw | backend/src/bcrypt.c:131-141 | zero exactly if the self-test passes and hashing with the stored hash reproduces it |
| Bcrypt.OwnHashMatches | backend/src/bcrypt.c:124-141 | a password checks against every hash made from it |
| Bcrypt.MatchesExactlyHashes | backend/src/bcrypt.c:131-141 | a stored string checks exactly if it is a hash of the password under some accepted setting |
| Bcrypt.MatchesExactlyAlike | backend/src/bcrypt.c:124-141 | a password checks against the hash of another exactly if the kernel gives both the same 23 bytes under that salt, cost and flag |
| Bcrypt.Gensalt | backend/src/bcrypt.c:97-122 | the return code tells which use of the random device failed; out-of-range factors become 12, and the setting carries cost and bytes |
| FraudDetector.FraudDetector.AddEdge | backend/include/fraud_detector.hpp:33-38 | appends one edge to its account and leaves the others alone |
| FraudDetector.FraudDetector.HopIsViable | backend/include/fraud_detector.hpp:48-67 | the incremental checks decide whether the longer path is plausible |
| FraudDetector.HopDecides | backend/include/fraud_detector.hpp:48-67 | amounts, ratios and time window of a longer path follow from those of the path and the new edge |
| FraudDetector.RatioCrossMultiplied | backend/include/fraud_detector.hpp:54-59 | the ratio test without division: at least 1 - tolerance times the previous amount, at most 102 percent of it |
| FraudDetector.NextStep | backend/include/fraud_detector.hpp:85-105 | pruning loses nothing: what an edge must satisfy for any suspicious walk to go on with it |
| FraudDetector.FraudDetector.FindCyclesFrom | backend/include/fraud_detector.hpp:69-115 | reports every suspicious walk that extends the path exactly once, restores the path, and ends even without a length limit |
| FraudDetector.FraudDetector.TryEdge | backend/include/fraud_detector.hpp:85-114 | the same for the walks that go on with one edge |
| FraudDetector.DetectCycles | backend/include/fraud_detector.hpp:143-166 | one entry for each pair of an account and a suspicious walk from it, and no others |
| FraudDetector.StartIsLeast | backend/include/fraud_detector.hpp:86-98 | a cycle is reported from its least account only |
| HashTable.HashTable.Insert | backend/include/hashtable.hpp:74-91 | updates the map the table stands for, in place or at the end of the bucket |
| HashTable.HashTable.Find | backend/include/hashtable.hpp:93-107 | looks the key up in the map |
| HashTable.HashTable.Remove | backend/include/hashtable.hpp:109-126 | removes the key and tells whether it was there |
| HashTable.HashTable.Contains | backend/include/hashtable.hpp:128-132 | tells whether the key is there |
| HashTable.HashTable.Size | backend/include/hashtable.hpp:134-136 | the number of keys |
| HashTable.HashTable.GetAll | backend/include/hashtable.hpp:138-148 | every entry of the map exactly once |
| HashTable.OwnBucket | backend/include/hashtable.hpp:160-162 | a key is in the table exactly if it is in the bucket it hashes to |
| HashTable.EntriesUnique | backend/include/hashtable.hpp:138-148 | keys differ across all buckets |
| HashTable.StoreLemma | backend/include/hashtable.hpp:74-91 | storing in one bucket updates the map of the whole table and keeps every key in its bucket |
| HashTable.RemoveLemma | backend/include/hashtable.hpp:109-126 | removing from one bucket removes from the map of the whole table |
| BankIndex.Bank.constructor | backend/include/bank.hpp:40-46 | the index knows every held account and names a holder |
| BankIndex.Bank.FindAccount | backend/include/bank.hpp:20-35 | the lookup through the index; nothing exactly if no user holds the account |
| BankIndex.LookupIsFlat | backend/include/bank.hpp:20-46 | looking up account, user, account is looking up in the flat account map |
| StoreUsers.LoadDb.StoreUsers | backend/include/database_loader.hpp:468-607 | the look-behind loop with its epilogue adds exactly the nested grouping of the rows |
| StoreUsers.StepRow | backend/include/database_loader.hpp:473-546 | one row keeps the accumulators and the finished users what the rows so far require |
| StoreUsers.FlatteningGivesRows | backend/include/database_loader.hpp:468-607 | flattening the grouping gives back the rows, users without account and accounts without transaction included |
| StoreUsers.OneOwner | backend/include/database_loader.hpp:468-607 | no account is loaded under two users |
| CircularQueue.CircularQueue.Push | backend/include/request_queue.hpp:38-53 | appends unless full; the ring wraps |
| CircularQueue.CircularQueue.Pop | backend/include/request_queue.hpp:54-71 | drops the oldest item unless empty |
| CircularQueue.CircularQueue.IsEmpty | backend/include/request_queue.hpp:91-98 | no items |
| CircularQueue.CircularQueue.IsFull | backend/include/request_queue.hpp:100-107 | as many items as slots |
| CircularQueue.CircularQueue.Front | backend/include/request_queue.hpp:109-116 | the oldest item, or an error if there is none |
| RequestQueue.RequestQueue.Push | backend/include/request_queue.hpp:152-158 | true unless shutting down, even when the full ring refuses the item |
| RequestQueue.RequestQueue.Shutdown | backend/include/request_queue.hpp:166-170 | sets the flag and keeps the items |
| RequestQueue.RequestQueue.TryPop | backend/include/request_queue.hpp:173-186 | waits, takes the oldest item, or reports drained, as the loop condition decides |
| RequestQueue.StepKeepsInv | backend/include/request_queue.hpp:152-186 | every step keeps: popped items then the ring are the accepted items in order; nothing lost; no lost wake-up; workers leave only drained |
| RequestQueue.RunKeepsInv | backend/include/worker_pool.hpp:49-63 | the same for every state of every run |
| RequestQueue.NothingLost | backend/include/worker_pool.hpp:49-63 | responses, items in process and queued items add up to the accepted items |
| RequestQueue.AllAnswered | backend/include/worker_pool.hpp:112-117 | once all workers have left, every accepted item was answered once and taken in order |
| RequestQueue.SomebodyAwake | backend/include/request_queue.hpp:173-186 | a queued item never waits on sleeping workers only |
| RequestQueue.ClosedStep | backend/include/worker_pool.hpp:112-117 | after shutdown every worker step leaves less to do and nothing is accepted |
| RequestQueue.ClosedProgress | backend/include/worker_pool.hpp:112-117 | after shutdown a worker that has not left can step |
| RequestQueue.ShutdownFinishes | backend/include/worker_pool.hpp:112-117 | so the joins return: runs after shutdown are bounded and end with all workers gone |
| Bank.OrderAgrees | backend/src/database_loader.cpp:90-102 | deposit first or withdrawal first: same success, same rows, for distinct endpoints |
| Bank.LogRecordsMovements | backend/src/database_loader.cpp:117-118 | the log rows record the movements |
| BankLog.LogTellsHistory | backend/src/database_loader.cpp:30-118 | a reader of the log alone, who takes the receiver of a transfer from the first row and requires the second to name the sender, recovers every granted request with both endpoints |
| BankLog.LogIsHistory | backend/src/database_loader.cpp:30-118 | in every reachable state of any number of threads the log reads as the committed requests in the order of their commits |
| BankLog.RunLogIsHistory | backend/src/database_loader.cpp:4-138 | so it does at the end of every run |
| Bank.RunShifts | backend/src/database_loader.cpp:10-102 | a request moves every balance by the net of its movements |
| Bank.AtomicExplains | backend/src/database_loader.cpp:8-127 | a granted request keeps the log an explanation of the balances |
| Bank.ReplayExplains | backend/src/database_loader.cpp:8-127 | after any sequence of granted requests each balance is its initial value plus the signed sum of its log rows, and each logged withdrawal was covered |
| Bank.CoveredNonnegative | backend/src/database_loader.cpp:16-17 | covered withdrawals never overdraw an account that started with funds |
| Bank.BalanceLaws | backend/src/database_loader.cpp:12-43 | actual minus available is constant; available stays non-negative |
| BankMemory.Account.DepositUnlocked | backend/include/account.hpp:184-192 | both balances grow by the amount, or an error for a non-positive one |
| BankMemory.Account.WithdrawUnlocked | backend/include/account.hpp:194-207 | both balances fall exactly if the available one covers the amount |
| BankMemory.MemoryBank.ApplyMemoryUpdate | backend/include/bank.hpp:66-100 | for every request and whatever mutexes are held: returns, throws or blocks, with the balances and the mutexes that this leaves; a refused withdrawal is ignored |
| BankMemory.ProperUpdate | backend/include/bank.hpp:66-100 | with no mutex held a proper request is mirrored and leaves no mutex held |
| BankMemory.UpdateIsProper | backend/include/bank.hpp:66-100 | with no mutex held and the accounts loaded, the update goes through exactly for positive amounts and distinct endpoints; a self-transfer blocks with its mutex held |
| BankMemory.MirrorFollows | backend/include/bank.hpp:66-100 | when memory equalled the database before a granted request, it does so afterwards |
| BankMemory.LoadDb.Transaction | backend/src/database_loader.cpp:4-138 | for every request: the database changes exactly as the atomic bank says, the memory as applyMemoryUpdate does after a commit, and the answer is that of the call or of the exception handler |
| BankMemory.AnswerIsGrant | backend/src/database_loader.cpp:31-137 | the answer is whether the request was granted, except exactly for granted requests with a non-positive amount or equal endpoints |
| BankProtocol.NextKeepsLocks | backend/include/bank.hpp:81-97 | every step keeps the lock tables in agreement with what the threads hold |
| BankRuns.StepRefines | backend/src/database_loader.cpp:8-127 | at statement and commit granularity a commit is the atomic request on the committed state; all other steps, aborts included, leave that state alone |
| BankRuns.RefusalJustified | backend/src/database_loader.cpp:22-28 | a request is turned down only when the atomic bank would turn it down at that moment |
| BankRuns.WorkIsRun | backend/src/database_loader.cpp:95-102 | the uncommitted rows of a transaction are what its statements make of the committed ones |
| BankRuns.NextKeepsThreads | backend/src/database_loader.cpp:95-102 | no step of another thread invalidates uncommitted rows |
| BankRuns.NextPending | backend/include/bank.hpp:66-100 | logged movements are mirrored movements plus pending ones, for every account, at every step |
| BankRuns.MirrorStep | backend/include/bank.hpp:78-93 | a mirrored movement keeps memory explained; a dropped withdrawal is exactly an uncovered one |
| BankRuns.NextGranted | backend/src/database_loader.cpp:31-31 | the committed requests are exactly those of the threads that got past their commit |
| BankRuns.StepKeepsInv | backend/src/database_loader.cpp:4-138 | every step of every thread keeps all of the above |
| BankRuns.RunKeepsInv | backend/src/database_loader.cpp:4-138 | so does every schedule of any number of threads |
| BankSerial.SerialStep | backend/src/database_loader.cpp:4-138 | a commit is answered true and a failing statement false, each as the atomic bank would at that moment |
| BankSerial.Serializable | backend/src/database_loader.cpp:4-138 | every run has a sequential order of all decided requests, refused ones included, in which the atomic bank gives each the answer it got and ends with the same rows and log |
| BankSerial.FinishedOrder | backend/src/database_loader.cpp:4-138 | when all requests are answered that order holds each of them once |
| BankLaws.Balances | backend/src/database_loader.cpp:8-127 | in every reachable state: balance = initial + signed log, constant difference, no overdraft |
| BankLaws.MirrorEquation | backend/include/bank.hpp:66-100 | in every reachable state: memory = database - pending + refused |
| BankLaws.MirrorsExclude | backend/include/bank.hpp:89-96 | two threads never apply movements to one account at the same time |
| BankLaws.QuiescentMirror | backend/include/bank.hpp:66-100 | when all requests are answered: memory = database exactly if nothing was dropped, exactly if the mirrored order covers every withdrawal |
| BankLaws.CommitOrderSuffices | backend/include/bank.hpp:66-100 | mirroring each account in commit order drops nothing, so memory = database at rest |
| BankLaws.OvertakingDrifts | backend/include/bank.hpp:66-100 | a run in which a mirror update overtakes an earlier one: 100 in memory, 0 in the database |
| BankDrift.DriftOverdraws | backend/include/bank.hpp:66-100 | a run that ends with memory different from the database had granted requests that withdraw in total more from an account than it held at the start |
| BankDrift.OverdrawDrifts | backend/include/bank.hpp:66-100 | given such requests, a schedule that ends so: commit them in that order, then mirror the withdrawals first |
| BankDrift.DriftExactly | backend/include/bank.hpp:66-100 | some schedule of the requests makes memory differ from the database if and only if such requests are among them |
| BankDrift.Complete | backend/src/database_loader.cpp:4-138 | every reachable state can be run to its end |
| BankAlone.EndingKept | backend/src/database_loader.cpp:4-138 | no step of a thread changes how its request ends if it runs on alone |
| BankAlone.UnhinderedMoves | backend/src/database_loader.cpp:90-102 | a thread whose locks nobody else holds can move until it is done |
| BankAlone.AloneIsTransaction | backend/src/database_loader.cpp:4-138 | a request running alone, step by step, has the answer, rows, log and mirror that `BankMemory.LoadDb.Transaction` promises |
| BankProgress.RowOwner | backend/src/database_loader.cpp:90-102 | the holder of a row can move or waits for a higher row |
| BankProgress.MutexOwner | backend/include/bank.hpp:86-90 | the holder of a mutex can move or waits for a higher one |
| BankProgress.NoDeadlock | backend/include/bank.hpp:81-97 | no reachable state has every unfinished thread blocked: the chain of owners leads to one that can move |
| BankProgress.RunsAreBounded | backend/src/database_loader.cpp:4-138 | every step uses up work: no run is longer than the work its threads have left |
| BankProgress.EveryRunFinishes | backend/src/database_loader.cpp:4-138 | from a start state every run has at most ten steps a request, and a run that cannot go on has answered every request |

## Left out

- The error correcting strength of the format and version words (BCH codes) is not studied; their computation is modelled.
- `makeSegments`, ECI and Kanji segments, and the SVG and QML code around the encoder.
- An algorithm that corrects errors: that the nearest codeword is unique is proved, how to find it is not modelled.
- Penalty.ScoreLine: one method for the row loop and the column loop of the scorer, which are the same code on different lines.
- Bcrypt.BfCrypt: the S-box contents, the standard subkeys and the expensive key schedule: a kernel that maps key, salt, cost and flags to 23 bytes is a parameter of `Bcrypt`.
- Bcrypt.HashPw: the verdict of the self-test is a parameter; that its key part passes is `KeyExpansion.SelfTestPasses`, its hash part needs the kernel.
- Bcrypt.Gensalt: what the random device does is a parameter; retries of interrupted calls are not modelled.
- The MD5, extended and traditional salt generators.
- The character tables of the radix-64 alphabet are written as ranges of characters.
- Timing of the comparison and of the key expansion.
- The SQL engine: tables are maps with row locks, and an update whose condition fails on the committed row neither waits nor changes anything. Connections, remarks and replies to clients are not modelled.
- A log insert or a commit that itself fails; lost connections.
- The protocol of many threads leaves out non-positive amounts and transfers to the same account; `BankMemory` models what one thread does with them.
- 64-bit overflow of amounts and rounding of the ratio test: integers and reals are used.
- Each protocol thread answers one request; the worker pool that feeds threads from the queue is modelled in `RequestQueue` with the processing of an item as one step.
- Login, refresh, account creation, the response queue and the login workers: input and output, or the same monitor again.
- RequestQueue.RequestQueue.TryPop: one evaluation of the wait loop; sleeping and waking are the steps of the state machine. A wake-up without a signal is allowed only as a check of the queue.
- HashTable.HashTable.Insert: the mutex of each bucket, `clear`, and moved-from tables are not modelled; operations are one at a time.
- StoreUsers.LoadDb.StoreUsers: the rows are assumed adjacent by user and by account, as the query orders them, and columns other than identifiers are opaque values.
- FraudDetector.DetectCycles: building the graph from the loaded transactions and parsing timestamps are left out; accounts and edges are given.
