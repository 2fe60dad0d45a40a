# Verified models of three components

This project models three components of the repository in Dafny and proves what they promise:

- **The QR Code encoder** (`external/qrcodegen/QrCode.cpp`), from text or bytes to the finished grid of modules: the
  field GF(2^8/0x11D) and the Reed-Solomon code, interleaving, segments and the padded bit stream, the function patterns
  with the format and version words, zigzag placement, masking, the penalty score, and the choice of version, level and
  mask. Section numbers refer to ISO/IEC 18004:2015 (7.4 data encoding, 7.5 error correction, 7.6 final message, 7.7
  placement, 7.8 masking, 7.9 and 7.10 format and version information); annexes C, D and E list the format words, the
  version words and the alignment positions.
- **The output-ancestry tool** (`src/blockchain_utilities/blockchain_ancestry.cpp`): the forward pass over the blocks,
  the backward walk from one transaction, and the three optional caches in front of the read-only database.
- **Adding and popping blocks** (`src/blockchain_db/blockchain_db.cpp`, on the primitives of
  `src/blockchain_db/lmdb/db_lmdb.cpp`): spent key images, transactions, one table of outputs per amount, blocks.

Code that changes state is modelled as classes and methods (`QrSymbol.QrCode`, `Bits.BitBuffer`,
`AncestryState.State`, `BlockchainDb.Db`) whose contracts tie the new state to functions of the old one; what the
source promises is proved about those functions.

The encoder's checks of the form "Assertion error" cannot fail. In `QrCode.cpp` these are line 238 (the match over the
levels is total), 279, 295, 300 and 304 (`Encoder.EncodeSegments`), 353 (`QrSymbol.QrCode.DoMasking`), 453 and 483
(`BchCode.ComputeCheckBits`), 563 (`Interleave.InterleaveBlocks`), 592 (`QrSymbol.QrCode.Build` with
`PatternRoom.RoomForCodewords`), 612 (`QrSymbol.QrCode.ApplyMask`), 722 (`QrTables.RawModulesRange`), 780
(`Gf256.Multiply`) and 788 (`Penalty.FinderPenaltyCountPatterns`).

`dafny verify dfyconfig.toml` checks the whole project.

## How the main results fit together

- *Encoder.* `Gf256` and `GfField` give the field laws, no zero divisors and the order 255 of the element 2.
  `Polynomials` and `ReedSolomon` show that the shift register is polynomial division and that codewords vanish at
  the roots; `ReedSolomonDistance` gets the minimum distance from that by Vandermonde elimination. `BchPolynomials` and
  `BchDistance` do the same for the format and version words over GF(2), and `BchTables` compares them with the standard's
  lists. `FunctionPatterns` has the patterns as layers drawn one over the other, and `PatternRoom` shows that they leave
  exactly the modules that the formula says. `ScanOrder`, `StreamLaws`, `MaskPictures`, `PatternPictures` and `PenaltyCounts` fix
  what the encoder and a reader have in common by other means: step by step, by table, by picture or as sizes of sets.
  `Interleave`, `BitStream` and `Placement`/`Reader` invert one stage each, and `QrEncode` composes them: whoever has nothing but the modules of a symbol reads the version off its size and the level and mask off the format
  cells, knows the function modules from those, takes off the mask, follows the scan, deinterleaves, parses, and gets the
  text. `FinderScan` and `Penalty` show that the single pass with a run history computes the declarative score.
- *Ancestry.* `AncestryGraph` defines paths and reachability and the number of paths as the size of a set of paths.
  `AncestryRefresh` proves the forward pass to be the transitive closure from any state it may resume from, and
  `AncestryGrowth` that a state saved for a shorter chain is such a state; `AncestryWalk` proves termination and the counts
  of the backward walk; `AncestryTool` proves that the two agree.
- *Block store.* `BlockStore` has the store as a value, `BlockRows` says field by field what is stored for a block,
  `BlockErrors` what its errors mean, `BlockPops` proves exactly when a pop undoes an addition and what
  it does otherwise, `BlockRuns` lifts this to every sequence of additions and pops and to the repair of old databases,
  `BlockAddable` says which blocks can be added, `BlockRct` counts RingCT outputs, and `BlockchainDb` is the object that
  makes the steps.

## Where the code does not do what it is for

- Adding a transaction stores its outputs under amount 0 when *some* input is a miner input and the version *is* 2
  (`blockchain_db.cpp:205-240`); removing it looks under amount 0 when the *only* input is a miner input and the version is
  *at least* 2 (`db_lmdb.cpp:1159-1164`). For the versions that the parser accepts, 1 and 2, the two rules differ for a
  version 2 transaction with a miner input beside another input, if it has an output of nonzero amount
  (`BlockStore.RulesCanDisagree` is one). Removal undoes addition exactly where the rules agree: for a transaction
  (`BlockStore.RemoveUndoesAddIff`), a block (`BlockPops.PopUndoesAddIff`), a number of pops
  (`BlockRuns.PopManyUndoesIff`) and any sequence of additions and pops (`BlockRuns.RunIsNetIff`). Where they do not, either
  a pop fails, or everything but the tables of outputs is restored and outputs stay behind under amount 0.
- The counters of the backward walk are 32 bits wide, and `get_full_ancestry` adds them up. `AncestryWalk.FullAncestryIsPaths`
  says exactly when the figure is the number of paths, and `AncestryOverflow.CounterWraps` is a chain of 21 blocks on
  which it is not: each transaction spends both outputs of the one before it, behind a ring of the two for each.
- The cumulative RingCT count is restarted at each block below version 4 (`db_lmdb.cpp:826-835`), so it is that of the
  chain only as `BlockRct.CumulativeKeptIff` says. `BlockRct.CountRestarts` has two blocks of version 1 with miner
  transactions of version 2 on which it is not. Such blocks reach `add_block` only without consensus validation.

## Model

| member | source | states |
|---|---|---|
| Gf256.Multiply | external/qrcodegen/QrCode.cpp:772-782 | the loop over the bits of y computes the field product, and the nine-bit intermediate never overflows, so the final range check cannot fail |
| Gf256.MulDistributes | external/qrcodegen/QrCode.cpp:772-782 | the product is bilinear over xor, in both arguments |
| Gf256.MulCommutes | external/qrcodegen/QrCode.cpp:772-782 | the product is commutative although the loop treats x and y differently |
| Gf256.MulAssociates | external/qrcodegen/QrCode.cpp:772-782 | the product is associative |
| GfField.NoZeroDivisors | external/qrcodegen/QrCode.cpp:772-782 | a product is zero only if a factor is: 0x11D is irreducible |
| GfField.NoShortPeriod | external/qrcodegen/QrCode.cpp:742-745 | no power of 2 with exponent from 1 to 254 is one |
| GfField.PowersDistinct | external/qrcodegen/QrCode.cpp:742-745 | the first 255 powers of 2 are different from each other: 2 generates the field |
| Polynomials.EvalProduct | external/qrcodegen/QrCode.cpp:742-753 | evaluating a product of polynomials multiplies the values |
| Polynomials.DivisionUnique | external/qrcodegen/QrCode.cpp:759-769 | division by a monic polynomial has one quotient and one remainder of lower degree |
| ReedSolomon.ComputeDivisor | external/qrcodegen/QrCode.cpp:734-756 | for degrees 1 to 255 the in-place loops give the lower coefficients of the product of x - 2^i, i < degree; other degrees are rejected |
| ReedSolomon.RootsProductZeros | external/qrcodegen/QrCode.cpp:742-753 | that polynomial is zero at 2^0 .. 2^(degree-1) and nowhere else |
| ReedSolomon.ComputeRemainder | external/qrcodegen/QrCode.cpp:759-769 | the shift register on a vector gives the remainder function, for every nonempty divisor |
| ReedSolomon.RemainderDivides | external/qrcodegen/QrCode.cpp:759-769 | that function, with the digits shifted out, is a division of data * x^degree by the monic divisor |
| ReedSolomon.RemainderCharacterised | external/qrcodegen/QrCode.cpp:759-769 | a polynomial is the result exactly when it is congruent to data * x^degree and of lower degree |
| ReedSolomon.CodewordVanishes | external/qrcodegen/QrCode.cpp:740-768 | data followed by its remainder, of any length, is zero at each of 2^0 .. 2^(degree-1) |
| ReedSolomonDistance.Vandermonde | external/qrcodegen/QrCode.cpp:742-744 | a word with d vanishing power sums over distinct locators, nonzero in at most d places, is zero |
| ReedSolomonDistance.MinimumDistance | external/qrcodegen/QrCode.cpp:734-782 | codewords of different data blocks of one length, at most 255 bytes long, differ in at least degree + 1 places |
| ReedSolomonDistance.UniqueNearestCodeword | external/qrcodegen/QrCode.cpp:734-782 | with at most degree/2 wrong bytes the sent codeword is strictly nearer than any other |
| QrTables.TablesConsistent | external/qrcodegen/QrCode.cpp:827-846 | for all 40 versions and 4 levels there is data in every block, no block is longer than 255 bytes, and half of the parity is at least the 7, 15, 25 or 30 percent of all codewords that the level is for, and below the next level's |
| QrTables.RawModulesRange | external/qrcodegen/QrCode.cpp:711-724 | for all versions the number of modules left is from 208 to 29648, so the range check cannot fail |
| QrTables.LevelsOrdered | external/qrcodegen/QrCode.hpp:243-248 | in every version a higher level leaves strictly less room for data |
| BchCode.ComputeCheckBits | external/qrcodegen/QrCode.cpp:448-453 | the loop on a register of one bit more than the generator computes the remainder that `BchPolynomials` characterises; the highest bit is clear after every turn, so the range checks here and in line 483 cannot fail |
| BchCode.ComputeFormatBits | external/qrcodegen/QrCode.cpp:445-453 | the format word of a level and mask, the one of `BchTables.FormatWordIs` |
| BchCode.ComputeVersionBits | external/qrcodegen/QrCode.cpp:473-483 | the version word of a version, the one of `BchTables.VersionWordIs` |
| BchCode.FormatRoundTrip | external/qrcodegen/QrCode.cpp:232-240 | the level and the mask can be read from their format word |
| BchPolynomials.CheckDivides | external/qrcodegen/QrCode.cpp:448-451 | check bits followed by data, as a polynomial over GF(2), are a multiple of x^n plus the generator; the same for version words (lines 477-481) |
| BchPolynomials.CheckUnique | external/qrcodegen/QrCode.cpp:448-451 | before the same data no other check bits make a multiple |
| BchDistance.CodeXor | external/qrcodegen/QrCode.cpp:448-451 | the sum of two code words is a code word |
| BchDistance.FormatDistance | external/qrcodegen/QrCode.cpp:445-453 | the format words of different levels or masks differ in at least seven places |
| BchDistance.VersionDistance | external/qrcodegen/QrCode.cpp:473-483 | the version words of different versions differ in at least eight places |
| BchDistance.FormatNearest | external/qrcodegen/QrCode.cpp:445-453 | read with up to three wrong modules, format information is strictly nearest to the word drawn |
| BchDistance.VersionNearest | external/qrcodegen/QrCode.cpp:473-483 | the same for version information |
| BchTables.FormatWordIs | external/qrcodegen/QrCode.cpp:445-453 | all 32 format words are those listed in annex C of ISO/IEC 18004 |
| BchTables.VersionWordIs | external/qrcodegen/QrCode.cpp:473-483 | the words of versions 7 to 40 are those listed in annex D |
| FunctionPatterns.PositionsSpaced | external/qrcodegen/QrCode.cpp:695-708 | alignment positions go from 6 to seven from the end with at least twelve modules between neighbours |
| PatternPictures.PositionsAre | external/qrcodegen/QrCode.cpp:695-708 | the alignment positions of all versions are those listed in annex E |
| FunctionPatterns.FunctionMarkedIff | external/qrcodegen/QrCode.cpp:416-442 | a module is a function module exactly when one of the layers drawn covers it |
| FunctionPatterns.TimingAndFormatMarked | external/qrcodegen/QrCode.cpp:416-442 | column 6 and both copies of the format information are function modules |
| PatternRoom.CentersApart | external/qrcodegen/QrCode.cpp:425-438 | no two alignment patterns have a module in common |
| PatternRoom.CenterClear | external/qrcodegen/QrCode.cpp:425-438 | alignment patterns lie in the grid and off the finders, format cells and version blocks, and meet the timing patterns only on their line |
| PatternRoom.MarkedIffCovered | external/qrcodegen/QrCode.cpp:416-442 | a module is a function module exactly when it is a timing cell between the finders, or a finder, format, version or alignment cell |
| PatternRoom.CoverSize | external/qrcodegen/QrCode.cpp:711-724 | these are as many as the formula takes off the whole grid |
| PatternRoom.RoomForCodewords | external/qrcodegen/QrCode.cpp:711-724 | the modules left are exactly as many as the formula says, and after the codewords none to seven remain |
| PatternPictures.FinderAsPictured | external/qrcodegen/QrCode.cpp:496-505 | a finder pattern with its separator is the nine by nine picture around its centre |
| PatternPictures.AlignmentAsPictured | external/qrcodegen/QrCode.cpp:508-513 | an alignment pattern is the five by five picture around its centre |
| PatternPictures.TimingAlternates | external/qrcodegen/QrCode.cpp:418-421 | both timing patterns alternate, from black next to the upper left finder |
| PatternPictures.FormatCopies | external/qrcodegen/QrCode.cpp:455-469 | bit i of the format word has exactly two places, as in the order the source writes them, and the black module one |
| PatternPictures.VersionCopies | external/qrcodegen/QrCode.cpp:485-492 | bit k of the version word has exactly two places, mirrored at the diagonal |
| Interleave.Totals | external/qrcodegen/QrCode.cpp:533-551 | the blocks' data lengths add up to the data, and the columns sent add up to the raw codewords |
| Interleave.PositionInjective | external/qrcodegen/QrCode.cpp:554-561 | no two bytes of the blocks go to the same place |
| Interleave.PositionSurjective | external/qrcodegen/QrCode.cpp:554-561 | every place of the interleaved sequence holds a byte of some block |
| Interleave.PositionOrder | external/qrcodegen/QrCode.cpp:553-561 | the bytes come column by column, and within a column block by block |
| Interleave.BlocksAscend | external/qrcodegen/QrCode.cpp:540-550 | the blocks follow each other in the data, the longer ones by one byte last; the column behind the data of a short one is not sent |
| Interleave.BuildBlock | external/qrcodegen/QrCode.cpp:543-550 | one round of the block loop cuts off the block's data and appends padding for short blocks and the parity |
| Interleave.InterleaveBlocks | external/qrcodegen/QrCode.cpp:553-564 | the result has exactly the raw codewords, each byte but the padding at its place; the length check cannot fail |
| Interleave.AddEccAndInterleave | external/qrcodegen/QrCode.cpp:529-565 | succeeds exactly for data of the right length, and the result holds every block interleaved |
| Interleave.BlocksRecovered | external/qrcodegen/QrCode.cpp:540-561 | a deinterleaver gets back each block's data and parity, which together are a Reed-Solomon codeword |
| Interleave.DataRecovered | external/qrcodegen/QrCode.cpp:529-565 | deinterleaving all blocks gives back the data |
| Bits.BitBuffer.AppendBits | external/qrcodegen/QrCode.cpp:855-860 | accepts exactly lengths 0 to 31 with a value that fits, and appends its bits, high bit first |
| Bits.ValueOfBits | external/qrcodegen/QrCode.cpp:855-860 | reading back the bits of a number that fits gives the number |
| Bits.PackBits | external/qrcodegen/QrCode.cpp:310-313 | packing bit by bit into bytes is inverted by unpacking, high bit first |
| Bits.UnpackPacked | external/qrcodegen/QrCode.cpp:310-313 | packing a whole number of bytes loses no bit |
| Bits.GetBit | external/qrcodegen/QrCode.cpp:814-816 | shifting right and masking picks the bit at that distance from the right of the byte's list of bits |
| Segments.MakeBytes | external/qrcodegen/QrCode.cpp:67-74 | eight bits a byte; too long data is rejected; no append is |
| Segments.MakeNumeric | external/qrcodegen/QrCode.cpp:77-97 | the accumulating loop gives ten bits for three digits and four or seven for the rest, of length 10*(n/3) + {0,4,7}; text with another character is rejected; no append is |
| Segments.MakeAlphanumeric | external/qrcodegen/QrCode.cpp:100-120 | eleven bits for two characters and six for one left over, of length 11*(n/2) + 6*(n%2); other text is rejected; no append is |
| Segments.MakeEci | external/qrcodegen/QrCode.cpp:141-156 | one, two or three bytes for the designator; values outside 0 .. 999999 are rejected |
| Segments.MakeSegments | external/qrcodegen/QrCode.cpp:123-138 | no segment for the empty text, else one of the narrowest mode that holds all characters |
| Segments.PayloadIsNarrowest | external/qrcodegen/QrCode.cpp:123-138 | of all payloads that stand for a text, the one chosen takes the fewest bits |
| StreamLaws.CharValueIs | external/qrcodegen/QrCode.cpp:228-228 | in alphanumeric mode digits are worth 0 to 9, letters 10 to 35 and nine symbols 36 to 44, and there are no others |
| StreamLaws.CountWidths | external/qrcodegen/QrCode.cpp:55-64 | the width of the count field by mode, for versions up to 9, up to 26, and above |
| StreamLaws.NumericGroup | external/qrcodegen/QrCode.cpp:86-92 | three digits make the number they denote, in ten bits |
| StreamLaws.NumericRest | external/qrcodegen/QrCode.cpp:94-95 | two digits left over make a number of seven bits, one of four |
| StreamLaws.NumericExample | external/qrcodegen/QrCode.cpp:287-293 | the digits 01234567 give the stream that section 7.4.3 of ISO/IEC 18004 works out |
| StreamLaws.AlphanumericExample | external/qrcodegen/QrCode.cpp:287-293 | the text AC-42 gives the stream of section 7.4.4 |
| StreamLaws.EciExample | external/qrcodegen/QrCode.cpp:287-293 | a designator and bytes give mode, designator, mode, count and bytes, as in section 7.4.2 |
| Segments.NumericRoundTrip | external/qrcodegen/QrCode.cpp:77-97 | decoding the bits with the number of characters gives back the digits |
| Segments.AlphanumericRoundTrip | external/qrcodegen/QrCode.cpp:100-120 | decoding the bits with the number of characters gives back the text |
| Segments.BytesRoundTrip | external/qrcodegen/QrCode.cpp:67-74 | decoding the bits gives back the bytes |
| Encoder.GetTotalBits | external/qrcodegen/QrCode.cpp:177-191 | the length of the whole bit stream, or -1 exactly when a count does not fit its field or the length is no int |
| Encoder.AppendTerminator | external/qrcodegen/QrCode.cpp:297-304 | up to four zero bits, then zero bits to a byte boundary, never beyond the capacity |
| Encoder.AppendPadBytes | external/qrcodegen/QrCode.cpp:306-308 | the toggled pad byte gives alternating 0xEC and 0x11 up to exactly the capacity |
| StreamLaws.TerminatorIsLeast | external/qrcodegen/QrCode.cpp:297-304 | the terminated stream ends at the first byte boundary behind four zero bits, or at the end of the capacity |
| StreamLaws.PadByteIs | external/qrcodegen/QrCode.cpp:306-308 | pad byte k is 0xEC for an even k and 0x11 for an odd one |
| Encoder.BoostLevel | external/qrcodegen/QrCode.cpp:281-285 | when boosting, the highest level at which the data still fits; else the requested one |
| Encoder.EncodeSegments | external/qrcodegen/QrCode.cpp:255-317 | rejects bad arguments; fails exactly when no version of the range fits; else the least version, the best level, and codewords of exactly the capacity holding the padded stream; the checks in between cannot fail |
| BitStream.ParseSegment | external/qrcodegen/QrCode.cpp:287-293 | a parser of (mode, count, payload) gets one segment back and goes on behind it |
| BitStream.PaddingStops | external/qrcodegen/QrCode.cpp:297-308 | behind the segments the parser finds a zero mode or fewer than four bits |
| BitStream.CodewordsRoundTrip | external/qrcodegen/QrCode.cpp:287-313 | for every list of segments made by the factories, parsing the data codewords recovers the list |
| BitStream.TextRoundTrip | external/qrcodegen/QrCode.cpp:123-138 | the codewords of a text parse to one payload, whose characters are those of the text |
| Zigzag.ScanIsBijection | external/qrcodegen/QrCode.cpp:573-590 | for every odd size the scan visits each module outside column 6 once, and none in column 6 |
| ScanOrder.ScanAt | external/qrcodegen/QrCode.cpp:573-581 | the module at every step of the scan, by pair of columns, row and side, for every odd size |
| ScanOrder.ScanWalk | external/qrcodegen/QrCode.cpp:573-581 | the scan begins in the bottom right corner; odd steps go to the left neighbour, even ones one row on in the direction of the pair, up in the first pair and the other way in each next one; at the edge two columns to the left, or three over column 6 |
| ScanOrder.OpenInOrder | external/qrcodegen/QrCode.cpp:582-585 | of two unmarked modules, the one scanned first takes a bit first |
| Zigzag.DataModulesAreUnmarked | external/qrcodegen/QrCode.cpp:573-584 | with column 6 marked, the modules that take bits are exactly the unmarked ones, each once |
| Placement.DrawBit | external/qrcodegen/QrCode.cpp:582-585 | a bit goes to an unmarked module while there are bits; marked modules and the rest stay |
| Placement.PlacePair | external/qrcodegen/QrCode.cpp:577-589 | one column pair goes on with the scan of `ScanOrder.ScanWalk` and keeps bit k in the k-th unmarked module |
| Placement.PlaceCodewords | external/qrcodegen/QrCode.cpp:568-593 | bit k is in the k-th unmarked module of that scan and all others are untouched; the count returned is the lesser of bits and modules |
| Placement.ReadBack | external/qrcodegen/QrCode.cpp:568-593 | reading the unmarked modules in scan order gives the bits placed |
| Masking.MaskInvolution | external/qrcodegen/QrCode.cpp:596-617 | applying a mask twice restores the grid |
| MaskPictures.InvertsAsPictured | external/qrcodegen/QrCode.cpp:603-614 | each mask repeats a picture of at most six by six modules over the whole symbol |
| Masking.MaskKeepsFunctionModules | external/qrcodegen/QrCode.cpp:614-614 | no mask changes a function module |
| Masking.FormatCommutes | external/qrcodegen/QrCode.cpp:342-356 | drawing format information and masking do not interfere |
| Masking.TrialRound | external/qrcodegen/QrCode.cpp:341-350 | a round of the trial loop shows the complete grid of its mask and leaves the data modules as they were |
| FinderScan.UnitUnique | external/qrcodegen/QrCode.cpp:785-792 | where a 1:1:3:1:1 core ends determines its unit |
| FinderScan.CountIsCardinality | external/qrcodegen/QrCode.cpp:785-792 | the declarative count is the number of distinct (core, side) pairs in the line |
| FinderScan.CountIsPatternsAt | external/qrcodegen/QrCode.cpp:785-811 | seven run lengths tell exactly the patterns whose core ends where the last white run began, in the line bordered by unlimited white |
| Penalty.FinderPenaltyCountPatterns | external/qrcodegen/QrCode.cpp:785-792 | returns the number of those patterns, and its run length check cannot fail |
| Penalty.FinderPenaltyTerminateAndCount | external/qrcodegen/QrCode.cpp:795-803 | at the end of a line returns exactly the patterns not counted before |
| Penalty.EndRun | external/qrcodegen/QrCode.cpp:635-641 | a change of colour keeps the history in step with the line and counts the patterns that end there |
| Penalty.LinePenalty | external/qrcodegen/QrCode.cpp:625-643 | for a line of any length: L - 2 for each maximal run of L >= 5, and 40 for each finder-like pattern |
| Penalty.BalanceStepIsLeast | external/qrcodegen/QrCode.cpp:687-690 | for an odd total the formula is the least k >= 0 with (45-5k)% <= black/total <= (55+5k)% |
| Penalty.LeastStepIs | external/qrcodegen/QrCode.cpp:687-690 | the source's formula and the least such k, which the score is defined with, are the same |
| PenaltyBound.ScoreBound | external/qrcodegen/QrCode.cpp:340-348 | every score is below the initial minimum, so the automatic choice always finds a mask |
| PenaltyCounts.BlackCardinality | external/qrcodegen/QrCode.cpp:679-686 | the count of black modules is the size of the set of them |
| PenaltyCounts.BlocksCardinality | external/qrcodegen/QrCode.cpp:668-677 | the count of 2x2 blocks is the size of the set of modules equal to their right, lower and lower right neighbours |
| PenaltyCounts.LineCostIs | external/qrcodegen/QrCode.cpp:620-664 | a line costs its runs and 40 for each finder-like pattern in the set of them |
| PenaltyCounts.ScoreIs | external/qrcodegen/QrCode.cpp:620-692 | the score is the cost of all lines, 3 for each block and 10 for each step off balance |
| QrSymbol.QrCode.constructor | external/qrcodegen/QrCode.cpp:327-330 | a white symbol of the size of its version, without function modules |
| QrSymbol.QrCode.SetFunctionModule | external/qrcodegen/QrCode.cpp:516-521 | colours and marks one module and no other |
| QrSymbol.QrCode.DrawTiming | external/qrcodegen/QrCode.cpp:418-421 | the loop draws the timing layer over what is there and nothing else |
| QrSymbol.QrCode.DrawFinderPattern | external/qrcodegen/QrCode.cpp:496-505 | draws the rings by distance from the centre, with separator, cut off at the edge of the grid |
| QrSymbol.QrCode.DrawAlignmentPattern | external/qrcodegen/QrCode.cpp:508-513 | draws the rings by distance from the centre |
| QrSymbol.QrCode.GetAlignmentPatternPositions | external/qrcodegen/QrCode.cpp:695-708 | the loop from the last position down gives the ascending list |
| QrSymbol.QrCode.DrawVersion | external/qrcodegen/QrCode.cpp:473-493 | nothing below version 7, else both copies of the version word, mirrored at the diagonal |
| QrSymbol.QrCode.DrawFunctionPatterns | external/qrcodegen/QrCode.cpp:416-442 | a white symbol ends with all layers of its version and level drawn over one another |
| QrSymbol.QrCode.DrawCodewords | external/qrcodegen/QrCode.cpp:568-593 | refuses a wrong length; passes exactly when there are enough unmarked modules, with the bits placed along the scan of `ScanOrder.ScanWalk` |
| QrSymbol.QrCode.ApplyMask | external/qrcodegen/QrCode.cpp:596-617 | xors the pattern onto the modules that are not function modules, for masks 0 to 7 only |
| QrSymbol.QrCode.DrawFormatBits | external/qrcodegen/QrCode.cpp:445-469 | draws the format word of the level and mask, both copies and the black module; over function patterns nothing else changes |
| QrSymbol.QrCode.GetPenaltyScore | external/qrcodegen/QrCode.cpp:620-692 | the in-place loops compute the declarative score of the grid, with the least k of the balance rule |
| QrSymbol.QrCode.TryMask | external/qrcodegen/QrCode.cpp:342-349 | scores the complete grid of a mask and restores the data modules |
| QrSymbol.QrCode.ChooseMask | external/qrcodegen/QrCode.cpp:338-351 | of the eight masks the first with the least score over the complete grids; some mask is always found |
| QrSymbol.QrCode.DoMasking | external/qrcodegen/QrCode.cpp:338-356 | the finished grid is the trial grid of the given mask, or of the first with the least score; the check for a mask cannot fail |
| QrSymbol.QrCode.Build | external/qrcodegen/QrCode.cpp:333-356 | from a white symbol to one that carries the interleaved codewords of its data over its function patterns; fails exactly for data of the wrong length |
| QrSymbol.MakeQrCode | external/qrcodegen/QrCode.cpp:320-360 | succeeds exactly for a version, mask and number of codewords in range, else fails with the first of these three errors; a symbol made carries its data over the function patterns of its version and level |
| Reader.CodewordsRead | external/qrcodegen/QrCode.cpp:333-356 | taking off the mask and following the scan of a finished symbol gives the codewords |
| Reader.SymbolRoundTrip | external/qrcodegen/QrCode.cpp:255-360 | deinterleaving and parsing what is read from a symbol gives the payloads its segments were made from |
| Reader.SymbolShown | external/qrcodegen/QrCode.cpp:445-469 | the version, level, mask and function modules of a finished symbol can be told from its modules alone |
| Reader.DecodeRoundTrip | external/qrcodegen/QrCode.cpp:255-360 | a reader that is given nothing but the modules gets the payloads |
| PatternPictures.PatternsShown | external/qrcodegen/QrCode.cpp:333-356 | in a finished symbol all function modules but the format cells are as they were drawn |
| PatternPictures.FormatShown | external/qrcodegen/QrCode.cpp:455-469 | a finished symbol shows the format word of its level and mask in both places, and the black module |
| PatternPictures.VersionShown | external/qrcodegen/QrCode.cpp:485-492 | from version 7 on a finished symbol shows its version word in both places |
| Reader.BlockCorrectable | external/qrcodegen/QrCode.cpp:529-565 | for every layout of blocks, a block read with at most half as many wrong bytes as parity bytes is nearest to its own codeword |
| QrEncode.MakeSymbol | external/qrcodegen/QrCode.cpp:315-360 | from an encoding of payloads, a symbol of that version and level that carries its interleaved codewords over the function patterns under the mask asked for, or for -1 under the first of the best, and whose modules alone give the payloads |
| QrEncode.EncodeToSymbol | external/qrcodegen/QrCode.cpp:255-317 | fails exactly for bad arguments or payloads that fit no version of the range, each with its own error; else a symbol of the least version and the best level, made of the padded stream of the segments under the mask asked for or the best, whose modules alone give the payloads |
| QrEncode.TextUnits | external/qrcodegen/QrCode.cpp:123-138 | the payloads of a text stand for its characters, none for the empty text |
| QrEncode.EncodeText | external/qrcodegen/QrCode.cpp:243-246 | a text is too long for a segment, or fits no version, each exactly when said so, or becomes a symbol of the least version from 1 to 40, the highest level from the requested one that fits, and the best of the eight masks, whose modules alone give its characters |
| QrEncode.EncodeBinary | external/qrcodegen/QrCode.cpp:249-252 | the same for bytes |
| AncestryDb.RelativeToAbsolute | src/cryptonote_basic/cryptonote_format_utils.cpp:1520-1526 | the in-place loop gives at every place the sum of the relative offsets up to it, modulo 2^64 |
| AncestryDb.OffsetIsSum | src/cryptonote_basic/cryptonote_format_utils.cpp:1520-1526 | absolute offset i is the sum of the relative offsets up to i over the integers, modulo 2^64 |
| AncestryDb.OffsetsRecovered | src/cryptonote_basic/cryptonote_format_utils.cpp:1520-1526 | the relative offsets are the differences, so none is lost |
| AncestryDb.TxDataOf | src/blockchain_utilities/blockchain_ancestry.cpp:87-121 | the rings and output keys of a transaction; refused exactly when an input or output is of another kind |
| AncestryDb.CreatorIsPayer | src/blockchain_utilities/blockchain_ancestry.cpp:286-327 | when one transaction of its block pays to an output's key, the search by key finds it and no other |
| AncestryDb.CreatorIsFirstPayer | src/blockchain_utilities/blockchain_ancestry.cpp:286-327 | the lookup returns a transaction exactly when it is the first in its block, the miner transaction before the others, to pay to the output's key, and all up to it can be read |
| AncestryGraph.AncestorsNext | src/blockchain_utilities/blockchain_ancestry.cpp:569-580 | one more ring member adds itself and what its creator reaches to the reachable outputs |
| AncestryGraph.MembersOfInputs | src/blockchain_utilities/blockchain_ancestry.cpp:87-121 | a stored transaction has as many ring members as its inputs have key offsets, a coinbase none |
| AncestryGraph.MemberOfInput | src/blockchain_utilities/blockchain_ancestry.cpp:92-98 | member j of ring i is the output of the ring's amount at the sum of its first j + 1 key offsets modulo 2^64 |
| AncestryGraph.RankDrops | src/blockchain_utilities/blockchain_ancestry.cpp:573-579 | along every ring member the position in the chain drops, so there are no cycles |
| AncestryGraph.CountIsCardinality | src/blockchain_utilities/blockchain_ancestry.cpp:173-180 | the recursive number of paths to an output is the size of the set of those paths |
| AncestryGraph.ReachesIffCounted | src/blockchain_utilities/blockchain_ancestry.cpp:173-188 | an output is reachable exactly when some path to it is counted |
| AncestryState.State.StoreBlock | src/blockchain_utilities/blockchain_ancestry.cpp:238-242 | resizing to height + 1, which may truncate the cache, keeps every entry what the database holds |
| AncestryState.State.GetBlockFromHeight | src/blockchain_utilities/blockchain_ancestry.cpp:223-244 | returns what the database holds, for every setting and content of the caches, and caches it exactly when told to and not cached before |
| AncestryState.State.GetTransaction | src/blockchain_utilities/blockchain_ancestry.cpp:246-273 | returns what the uncached lookup returns, caches it exactly when told to, and keeps the caches right |
| AncestryState.State.FindOutputTxid | src/blockchain_utilities/blockchain_ancestry.cpp:275-328 | returns what the uncached search returns, through all three caches, caches it exactly when told to, and keeps the caches right |
| AncestryState.State.AddAncestry | src/blockchain_utilities/blockchain_ancestry.cpp:195-203 | joins a set into one entry, made when missing |
| AncestryState.State.AddOneAncestor | src/blockchain_utilities/blockchain_ancestry.cpp:205-209 | adds one output to one entry, made when missing |
| AncestryRefresh.ReadyInOrder | src/blockchain_utilities/blockchain_ancestry.cpp:529-582 | when a transaction is visited in chain order, the creators of its ring members have been, or have no ancestors |
| AncestryRefresh.EntryOfComplete | src/blockchain_utilities/blockchain_ancestry.cpp:211-221 | a missing entry read as the empty set is right in a complete map |
| AncestryRefresh.PartialNext | src/blockchain_utilities/blockchain_ancestry.cpp:571-579 | one ring member moves the entry from the closure over k members to that over k + 1, also when it was complete before |
| AncestryRefresh.VisitRings | src/blockchain_utilities/blockchain_ancestry.cpp:565-581 | the two loops bring the entry to the closure over all ring members and never fail on a chain |
| AncestryRefresh.Visit | src/blockchain_utilities/blockchain_ancestry.cpp:529-582 | visiting a transaction completes its entry and no other, coinbase or not |
| AncestryRefresh.VisitBlock | src/blockchain_utilities/blockchain_ancestry.cpp:523-586 | visiting a block completes the entries of its transactions |
| AncestryRefresh.Refresh | src/blockchain_utilities/blockchain_ancestry.cpp:507-595 | from a new state or one saved at any block by passes with any coinbase options, visited again, the pass ends with the complete map over what was visited before and the blocks up to the top, or stops at the first signal in a state it can resume from; it never fails on a chain |
| AncestryRefresh.RefreshBlock | src/blockchain_utilities/blockchain_ancestry.cpp:523-595 | a turn of the block loop completes the entries of one more block and records its height |
| AncestryRefresh.ResumedIsWhole | src/blockchain_utilities/blockchain_ancestry.cpp:507-595 | stopping after any block and resuming there visits what one uninterrupted pass visits |
| AncestryRefresh.VisitedIff | src/blockchain_utilities/blockchain_ancestry.cpp:523-586 | a pass visits exactly the transactions of its blocks, and the miner transactions when told to include them |
| AncestryRefresh.RefreshIsClosure | src/blockchain_utilities/blockchain_ancestry.cpp:507-595 | the finished map reads as the reachable outputs of every transaction, with or without coinbase entries |
| AncestryGrowth.AncestorsKept | src/blockchain_utilities/blockchain_ancestry.cpp:507-595 | a transaction of a shorter chain has the same ancestors in every chain that extends it |
| AncestryGrowth.CachesKept | src/blockchain_utilities/blockchain_ancestry.cpp:223-328 | caches that are right for a shorter chain are right for every chain that extends it |
| AncestryGrowth.CompleteKept | src/blockchain_utilities/blockchain_ancestry.cpp:507-595 | a map that is complete for the visited transactions stays so when the chain grows |
| AncestryGrowth.SavedKept | src/blockchain_utilities/blockchain_ancestry.cpp:507-603 | a state saved for a shorter chain, with or without coinbase entries, is one from which the pass over a longer chain can resume |
| AncestryCounts.PathsByEnd | src/blockchain_utilities/blockchain_ancestry.cpp:182-188 | the numbers of paths by the output they end at add up to the number of all paths |
| AncestryCounts.PathsSum | src/blockchain_utilities/blockchain_ancestry.cpp:182-188 | summed over the ancestors, the paths are all paths from the transaction |
| AncestryWalk.MovedNext | src/blockchain_utilities/blockchain_ancestry.cpp:685-700 | counting a ring member and queueing its creator keeps counted plus pending paths in balance, for every output |
| AncestryWalk.JoinCreator | src/blockchain_utilities/blockchain_ancestry.cpp:697-697 | the walk's own update of the saved map adds ancestors only |
| AncestryWalk.JoinedIs | src/blockchain_utilities/blockchain_ancestry.cpp:687-698 | the entry of a transaction gets exactly what those of its creators hold, and no other entry changes |
| AncestryWalk.CompleteEntryKept | src/blockchain_utilities/blockchain_ancestry.cpp:687-698 | the walk never changes a complete entry |
| AncestryWalk.CountMembers | src/blockchain_utilities/blockchain_ancestry.cpp:680-702 | the loops over one transaction's rings count exactly its ring members, queue their creators in order, and join the creators' entries into its own |
| AncestryWalk.UnderwayNext | src/blockchain_utilities/blockchain_ancestry.cpp:664-703 | each turn of the loop lowers the sum of 1 + paths over the list by exactly one |
| AncestryWalk.Walk | src/blockchain_utilities/blockchain_ancestry.cpp:656-703 | terminates on every chain after 1 + paths turns; the counters are then those of exactly the reachable outputs, each the number of paths modulo 2^32; the transactions visited are the start and the creators of those visited, first in first out, and the map has what they join; fails only for an unknown start |
| AncestryWalk.GetFullAncestry | src/blockchain_utilities/blockchain_ancestry.cpp:182-188 | the sum of the counters modulo 2^64, in whatever order they come |
| AncestryWalk.FullAncestryIsPaths | src/blockchain_utilities/blockchain_ancestry.cpp:173-188 | the figure is the number of paths exactly when each output has fewer than 2^32 and all together fewer than 2^64 |
| AncestryTool.StartTxids | src/blockchain_utilities/blockchain_ancestry.cpp:623-648 | the transactions to check, by hash, by output or by height, whatever the caches hold |
| AncestryTool.StartsAreAskedFor | src/blockchain_utilities/blockchain_ancestry.cpp:623-648 | asked for an output, one transaction that pays to its key in its block; asked for a height, all transactions of that block but the miner's |
| AncestryTool.SavedIsSound | src/blockchain_utilities/blockchain_ancestry.cpp:480-595 | no entry of a new or saved state holds anything but ancestors |
| AncestryTool.WalkKeepsComplete | src/blockchain_utilities/blockchain_ancestry.cpp:687-698 | the walks leave a refreshed map as it is |
| AncestryTool.ForwardIsBackward | src/blockchain_utilities/blockchain_ancestry.cpp:507-703 | the outputs counted backward are those a finished forward pass has saved for the start |
| AncestryTool.CheckAll | src/blockchain_utilities/blockchain_ancestry.cpp:656-710 | one right report for each start in order, up to a signal or an unknown transaction |
| AncestryTool.Run | src/blockchain_utilities/blockchain_ancestry.cpp:501-710 | from a state left by runs on the chain or a shorter one, with any coinbase options: every report is right, and after a refresh its outputs are those of the saved map, which the walks have not changed |
| AncestryOverflow.GrowingIsChain | src/blockchain_utilities/blockchain_ancestry.cpp:507-595 | a chain of 21 blocks, in which each transaction spends both outputs of the one before it, meets the assumptions about a chain |
| AncestryOverflow.CounterWraps | src/blockchain_utilities/blockchain_ancestry.cpp:173-188 | walking back from block 17 of it, an output with 2^33 paths is reported with count zero, and the total is wrong |
| OutputStacks.RemoveAddedOutput | src/blockchain_db/lmdb/db_lmdb.cpp:1054-1203 | an output just added is taken out by its index, and both tables are as before |
| OutputStacks.RemoveAddedOutputs | src/blockchain_db/lmdb/db_lmdb.cpp:1144-1165 | where the rules agree, the outputs of a transaction come out last in, first out |
| OutputStacks.OutputsRestoredIff | src/blockchain_db/lmdb/db_lmdb.cpp:1144-1165 | removing the outputs just added restores the tables exactly when the two rules for amounts agree |
| BlockStore.AddTransactionConsistent | src/blockchain_db/blockchain_db.cpp:182-248 | adding a transaction keeps outputs numbered by place and transactions by count |
| BlockStore.RemoveUndoesAddIff | src/blockchain_db/blockchain_db.cpp:336-350 | removing the transaction just added restores the whole store exactly when the two rules for amounts agree |
| BlockStore.RulesCanDisagree | src/blockchain_db/blockchain_db.cpp:229-246 | a version 2 transaction with two miner inputs that can be added and then not removed |
| BlockStore.AddBlockConsistent | src/blockchain_db/blockchain_db.cpp:250-307 | adding a block keeps the store consistent and one block higher |
| BlockRows.OutputsAdded | src/blockchain_db/lmdb/db_lmdb.cpp:1054-1119 | every output of a transaction has an entry under its amount with its key, unlock time, height, index and commitment, and a row with its transaction and place; nothing else changes |
| BlockRows.TransactionStored | src/blockchain_db/blockchain_db.cpp:182-248 | adding a transaction stores its row with height and number, its outputs by their indices, and its key images; everything stored before stays |
| BlockRows.BlockIsStored | src/blockchain_db/blockchain_db.cpp:250-307 | adding a block stores its row on top and all its transactions at its height, the miner transaction first, numbered one after the other; everything stored before stays, and nothing else is added |
| BlockRows.ChainIsStored | src/blockchain_db/blockchain_db.cpp:250-307 | after any additions every block of the chain is stored at its place with all its transactions and outputs, and there are no others |
| BlockStore.PopUndoesAdd | src/blockchain_db/blockchain_db.cpp:314-329 | where the rules agree, popping the block just added returns it with its transactions in reverse order and restores the store |
| BlockPops.StoredAtLeastRemoved | src/blockchain_db/blockchain_db.cpp:205-240 | every transaction has at least as many outputs stored under amount 0 as are looked for there, and as many exactly when the rules agree |
| BlockPops.PopLike | src/blockchain_db/blockchain_db.cpp:314-329 | a pop that succeeds gives the block back and restores all but the tables of outputs, whether or not the rules agree, and says how many outputs go from under amount 0 |
| BlockPops.PopUndoesAddIff | src/blockchain_db/blockchain_db.cpp:250-329 | popping the block just added returns it and restores the store exactly when the rules agree for all its transactions |
| BlockRuns.GrowConsistent | src/blockchain_db/blockchain_db.cpp:250-307 | every run of additions leaves a consistent store of that height |
| BlockRuns.PopManyUndoes | src/blockchain_db/blockchain_db.cpp:314-329 | where the rules agree for the last k blocks, k pops leave the store of the blocks before them and return those popped, last first |
| BlockRuns.PopManyUndoesIff | src/blockchain_db/blockchain_db.cpp:314-329 | after n additions, k pops leave the store of the first n - k blocks and return the others, last first, exactly when the rules agree for the k blocks popped |
| BlockRuns.FixupLeavesPrefix | src/blockchain_db/blockchain_db.cpp:453-489 | a chain stored without marking some key images, if it needs the repair, is taken back to height 202612, to the store of the blocks below, exactly when the rules agree for the blocks popped; if the key images lost belong to the blocks popped, that store is complete |
| BlockRuns.FixupLeavesCompleteChains | src/blockchain_db/blockchain_db.cpp:453-489 | a chain stored with the key images of the transaction that the repair looks for is left alone |
| BlockRuns.RunIsNet | src/blockchain_db/blockchain_db.cpp:250-329 | where the rules agree for the blocks popped, any sequence of additions and pops leaves the store that the blocks not popped make |
| BlockRuns.RunIsNetIff | src/blockchain_db/blockchain_db.cpp:250-329 | after any sequence of additions and pops the store is the one the blocks not popped make, exactly when the rules agree for the blocks popped |
| BlockRuns.RunIsLikeNet | src/blockchain_db/blockchain_db.cpp:250-329 | without any assumption it is that store but for the tables of outputs, with as many outputs too many under amount 0 as the rules differ by for the blocks popped |
| BlockRuns.NoDoubleSpends | src/blockchain_db/blockchain_db.cpp:205-210 | a stored chain has as many spent key images as spending inputs |
| BlockRuns.RunHasNoDoubleSpends | src/blockchain_db/blockchain_db.cpp:250-329 | after any sequence of additions and pops there are as many spent key images as spending inputs in the blocks left, whether or not the rules agree |
| BlockAddable.SpendIff | src/blockchain_db/blockchain_db.cpp:205-221 | inputs are accepted exactly when their kinds are known and their key images new and different |
| BlockAddable.AddTransactionsIff | src/blockchain_db/blockchain_db.cpp:280-292 | transactions are accepted one after the other exactly when all are storable and all hashes and key images are new and different |
| BlockAddable.AddableIff | src/blockchain_db/blockchain_db.cpp:250-307 | a block is added exactly when it goes on top of the chain, its parts are storable, and none of its transactions and key images is stored or occurs twice |
| BlockErrors.BlockError | src/blockchain_db/blockchain_db.cpp:250-307 | the error of a block that is rejected says what is wrong: with the list of hashes, with an input, a hash or an output of some transaction, or with the place of the block |
| BlockRct.NoZeroAmountsInOldTxs | src/blockchain_db/lmdb/db_lmdb.cpp:1074-1075 | a version 1 transaction with an output of amount 0 is rejected |
| BlockRct.ConservedIff | src/blockchain_db/blockchain_db.cpp:275-298 | with a miner input, the RingCT outputs counted for a block are those stored under amount 0 exactly when no transaction but the miner's has nonzero amounts moved to 0 |
| BlockRct.ChainConserves | src/blockchain_db/blockchain_db.cpp:275-298 | over a chain the counts add up to the height of the table of amount 0 |
| BlockRct.RunConserves | src/blockchain_db/blockchain_db.cpp:250-329 | after any sequence of additions and pops the height is at least the counts of the blocks left, and equal to them exactly when the rules agree for the blocks popped |
| BlockRct.CumulativeKeptIff | src/blockchain_db/lmdb/db_lmdb.cpp:826-835 | the count stored with the top block stays that of the chain exactly when the block is of version 4 or above or nothing was stored under amount 0 before |
| BlockRct.CountRestarts | src/blockchain_db/lmdb/db_lmdb.cpp:826-835 | on two blocks of version 1 the count stored is one and the outputs under amount 0 are two |
| BlockRct.ChainCumulative | src/blockchain_db/lmdb/db_lmdb.cpp:826-835 | it is right for every chain whose blocks below version 4 come before the first RingCT output |
| BlockchainDb.Db.AddOutputRow | src/blockchain_db/lmdb/db_lmdb.cpp:1054-1119 | adds to both tables the rows that `BlockRows.OutputsAdded` describes and returns the index; rejects an output without key, or of amount 0 without commitment |
| BlockchainDb.Db.RemoveOutputRow | src/blockchain_db/lmdb/db_lmdb.cpp:1167-1203 | removes the row with an index and its global row, or fails |
| BlockchainDb.Db.RemoveTxOutputs | src/blockchain_db/lmdb/db_lmdb.cpp:1144-1165 | removes a transaction's outputs by their indices, last first |
| BlockchainDb.Db.RemoveTransactionData | src/blockchain_db/lmdb/db_lmdb.cpp:978-1052 | removes the rows of a stored hash and the outputs of the transaction passed with it, whichever that is, or fails |
| BlockchainDb.Db.SpendAllInputs | src/blockchain_db/blockchain_db.cpp:205-221 | marks the key images or fails with the first error, and tells whether there was a miner input |
| BlockchainDb.Db.AddAllOutputs | src/blockchain_db/blockchain_db.cpp:225-246 | adds the outputs in order under the amounts the rule gives, and collects their indices |
| BlockchainDb.Db.StoreTransaction | src/blockchain_db/blockchain_db.cpp:182-248 | the steps of adding a transaction do what the function of the store says |
| BlockchainDb.Db.DropTransaction | src/blockchain_db/blockchain_db.cpp:336-350 | the steps of removing a transaction do what the function of the store says |
| BlockchainDb.Db.StoreBlock | src/blockchain_db/blockchain_db.cpp:250-307 | the steps of adding a block do what the function of the store says, with the same errors |
| BlockchainDb.Db.PopSteps | src/blockchain_db/blockchain_db.cpp:314-329 | the steps of popping a block do what the function of the store says |
| BlockchainDb.Db.PopTopBlock | src/blockchain_db/lmdb/db_lmdb.cpp:4160-4178 | pops the top block, or fails and leaves the store as it was |
| BlockchainDb.Db.Fixup | src/blockchain_db/blockchain_db.cpp:453-489 | pops down to height 202612 exactly for a writable mainnet chain above it without the first missing key image |

## Left out

QR Code encoder:

- `toSvgString`, the getters, Kanji segments (no factory makes them) and exception texts.
- Segments.MakeNumeric and Segments.MakeAlphanumeric: count characters in unbounded integers; the source's `int` would overflow for texts of 2^31 characters.
- Reader.DecodeRoundTrip: the reader looks at an undamaged symbol; the source has no reader. That damage can be repaired is said of codewords by `Reader.BlockCorrectable` and of format and version words by `BchDistance.FormatNearest` and `BchDistance.VersionNearest`; how is not modelled.

Ancestry tool:

- Blobs and hashes: a block or transaction that is missing or does not parse has no entry in the database; hashes are identifiers. The database is fixed during a run; between runs it may grow, but no block is replaced.
- Command line, logging, statistics of cache hits, loading and saving of the state file; `AncestryState.State` is the state as loaded.
- AncestryWalk.Walk: requires a chain in which rings name outputs of earlier transactions, since on a cycle the source would not terminate, and a saved map without false entries, as earlier runs leave it (`AncestryTool.SavedIsSound`).
- AncestryRefresh.Refresh: the stop signal is a function of the height, looked at once a block; that it stays set is not assumed.
- AncestryOverflow.GrowingIsChain: a chain here is what the tool relies on; consensus rules beyond that (ring sizes, unlock times, output ages) are not modelled.

Block store:

- Hard-fork state, timing, sizes, difficulty, weights and coins stored with a block; pruning; the transaction pool. A pop does not undo the hard-fork state in the source either.
- Blobs and hash computation: a transaction carries its hash, and a stored transaction is read back as it was stored. The commitment masks of a transaction are carried by its outputs, one for each. Versions are 1 and 2, as the parser of transactions demands (`src/cryptonote_basic/cryptonote_basic.h:185`).
- A failed addition leaves the steps before it done, as in the source, where the caller aborts the database transaction; its partial state is not specified.
- Corrupt databases (rows missing from one table only), which the source reports as further errors.
