# esec core in Dafny

This project models the deterministic core of **esec**. esec is an evolutionary-computation framework written in Python 2, and **ESDL** is its pipeline language.
Each core source file becomes one Dafny module. The model is stated in the framework's own terms: species, landscapes, configuration dictionaries, fitness values, monitors and the ESDL front end.
Operations that work step by step in the source (loops over counters, stacks and lists, objects whose fields change) are `method`s with loop invariants, proved against specification functions. Pure computations are functions. Lemmas state the properties the code and its tests promise.

| file | module | models |
|---|---|---|
| wrappers.dfy | Wrappers | `Option` and `Result` for error paths |
| slices.dfy | Slices | Python slices and sums over sequences |
| py_values.dfy | PyValues | the Python values a configuration holds, with Python truth and missing-key reads |
| binary_int.dfy | BinaryIntMapping | `esec/species/binary_int.py`: ones-complement, twos-complement, Gray and count decoding of bit blocks; the integer phenome and its bounds |
| binary_species.dfy | BinarySpecies | `esec/species/binary.py`: the integer phenome of a bit string, inversion and gap inversion |
| binary_landscape.dfy | BinaryLandscape | `esec/landscape/binary.py`: `inttobinlist`, OneMax, Royal Road, Goldberg's deceptive 3-bit function, the SAW weight update, the ECC helpers, MTTP legality and the mttp5i task table |
| integer_landscape.dfy | IntegerLandscape | `esec/landscape/integer.py`: bound expansion, legality, Nsum and Robbins |
| utils.dfy | Utils | `esec/utils/__init__.py`: `safe_div`, `dict_merge`, `all_equal`, `pairs`, `overlapped_pairs` |
| config_dict.dfy | ConfigDicts, StrictTest | `esec/utils/configdict.py` (`ConfigDict` item reads, overlay, `+`, `+=`, dotted names, `validate`) and `cfg_strict_test` |
| fitness.dfy | Fitnesses | `esec/fitness.py`: lexicographic, minimising and dominating comparison, EmptyFitness, part-wise arithmetic and in-place accumulation |
| sequence_species.dfy | SequenceSpecies | `esec/species/sequence.py`: legality, sequential repair, `_get_length`, `init_forward` |
| integer_species.dfy | IntegerSpecies | `esec/species/integer.py`: `_convert_bounds`, the checks of `_init`, the deterministic initialisers, `mutate_delta` |
| ge.dfy | GrammaticalEvolution | `esec/species/ge.py`: production parsing and the genome-driven stack expander |
| tgp.dfy | Tgp | `esec/species/tgp.py`: `_find_end`, `depth`, the edit mutation and the crossover splice, with prefix trees as the reference meaning |
| char_lexer.dfy | CharLexer | `esdlc/lexer.py`: the character state machine and statement grouping |
| token_reader.dfy | AstLexer | `esdlc/ast/lexer.py`: token ordering, `TokenReader`, the continuation handling of `tokenise` |
| expr_parser.dfy | ExprParser | `esdlc/ast/__init__.py`: `parse_expression` and its precedence reductions |
| verifier.dfy | Verifier | `esdlc/verifier.py`: variables in and out of blocks, constants, destination-group checks |
| consolemonitor.dfy | ConsoleMonitor | `esec/monitors/consolemonitor.py`: report parsing, statistics reset, the per-generation local-statistics reset, exceptions, termination tests, elapsed-time splitting |

Python integers are unbounded, so no wrap-around is modelled except where the source computes it.
Python 2 `/` on integers and `//` are floor division (`Utils.FloorDivide`).
Random draws (`rand.*`, `frand()`) and the process clock are parameters of the operations that use them.

Where the source's documentation and its code differ, the model follows the code:
- `_dominating_fitness_gt` is documented to beat any object that is not a dominating fitness of the same size. The code returns False for any other fitness class (`Fitnesses.DominationNeedsSameClass`).
- The grammar expander reads a codon only for rules with several productions and for TERMINAL. Reuse of the genome is limited to `wrap` extra passes. The work stack is limited to 500 entries, and exceeding it gives no program rather than an error. `DEC_INDENT` may take the indent below zero. Grammars are not validated when built: an unknown rule name fails when the expander reaches it.
- `overlapped_pairs` and `_make_mttp5i` differ from their documented behaviour; see "## Findings". The MTTP landscape uses the table `_make_mttp5i` builds as written (`BinaryLandscape.MttpTasks`); the corrected table is modelled beside it only to state the intended property.

The TGP edit is a single pass: the branches an IF NOT rewrite moves are copied without being edited, so a NOT NOT inside them survives (`Tgp.IfNotKeepsNotNot`). `Tgp.NoNotNotLeft` is therefore stated for programs without IF.

## Model

| member | source | states |
|---|---|---|
| PyValues.Lookup | esec/esec/utils/configdict.py:174-176 | reading a configuration key gives its value, or None when the key is absent |
| Utils.FloorDivide | esec/esec/utils/__init__.py:27-30 | integer division rounds towards negative infinity, for either sign of the divisor |
| BinaryIntMapping.OnesComplement | esec/esec/species/binary_int.py:144-145 | a block of n bits decodes to a value below 2^n |
| BinaryIntMapping.OnesComplementMsb | esec/esec/species/binary_int.py:144-145 | the first bit of a block weighs 2^(n-1) and the rest decode as a shorter block (MSB first) |
| BinaryIntMapping.OnesComplementIsWeightedSum | esec/esec/species/binary_int.py:135-145 | the decoded value is the sum of each bit times its power of two counted from the end |
| BinaryIntMapping.OnesComplementAppend | esec/esec/species/binary_int.py:144-145 | appending a bit doubles the value and adds the bit |
| BinaryIntMapping.OnesComplementExample | esec/tests/species/test_binary_int.py:63-70 | [1,0,1,1] decodes to 11 |
| BinaryIntMapping.OnesComplementExtremes | esec/esec/species/binary_int.py:144-145 | an all-zero block decodes to 0 and an all-one block to 2^n - 1 |
| BinaryIntMapping.TwosComplement | esec/esec/species/binary_int.py:161-165 | an empty block fails (the last factor does not exist); otherwise the value is in [-2^(n-1), 2^(n-1)) and negative exactly when the top bit is set |
| BinaryIntMapping.TwosComplementCongruent | esec/esec/species/binary_int.py:161-165 | the value is the unsigned value minus 2^n when the top bit is set (top bit weighs -2^(n-1)) |
| BinaryIntMapping.TwosComplementExample | esec/tests/species/test_binary_int.py:72-80 | [1,0,0,0] decodes to -8 |
| BinaryIntMapping.GrayDecode | esec/esec/species/binary_int.py:172-179 | Gray decoding keeps the block length |
| BinaryIntMapping.GrayDecodeIsPrefixParity | esec/esec/species/binary_int.py:172-179 | decoded bit i is the exclusive-or of the Gray bits 0..i |
| BinaryIntMapping.GrayDecodeEncode | esec/esec/species/binary_int.py:172-179 | decoding the Gray encoding of a block gives the block back |
| BinaryIntMapping.GrayEncodeDecode | esec/esec/species/binary_int.py:172-179 | Gray-encoding a decoded block gives the block back, so decoding is a bijection |
| BinaryIntMapping.GrayCode | esec/esec/species/binary_int.py:181 | a Gray-coded block of n bits decodes to a value below 2^n |
| BinaryIntMapping.GrayCodeRoundTrip | esec/esec/species/binary_int.py:181 | the Gray mapping of a Gray-encoded block equals the plain binary value of the block |
| BinaryIntMapping.GrayCodeExample | esec/tests/species/test_binary_int.py:82-97 | [1,0,0,0] Gray-decodes to 15 |
| BinaryIntMapping.CountOnes | esec/esec/species/binary_int.py:188 | the count of a block is at most its length |
| BinaryIntMapping.CountOnesExtremes | esec/esec/species/binary_int.py:188 | the count is 0 iff every bit is 0 and the length iff every bit is 1 |
| BinaryIntMapping.Decode | esec/esec/species/binary_int.py:131-188 | decoding a block fails only for two's complement of an empty block |
| BinaryIntMapping.DecodeAll | esec/esec/species/binary_int.py:94 | the mapping of a block list succeeds iff every block decodes, and then holds each block's value in order |
| BinaryIntMapping.Blocks | esec/esec/species/binary_int.py:88-93 | there are at most as many blocks as entries in `bits_per_value` |
| BinaryIntMapping.BlocksLengths | esec/esec/species/binary_int.py:90-92 | block k has `bits_per_value[k]` genes |
| BinaryIntMapping.BlocksShape | esec/esec/species/binary_int.py:88-93 | the blocks concatenate to the genome's prefix they cover, and blocking stops only at the first block that would run past the genome |
| BinaryIntMapping.BlocksOfRepeat | esec/esec/species/binary_int.py:71-77 | blocks of an all-b genome are all-b |
| BinaryIntMapping.BlocksCount | esec/esec/species/binary_int.py:71-79 | genomes of equal length give the same number of blocks |
| BinaryIntMapping.Repeat | esec/esec/species/binary_int.py:73-76 | `[b] * n` has n entries, all b |
| BinaryIntMapping.ComputePhenome | esec/esec/species/binary_int.py:87-94 | the block loop computes the phenome specification |
| BinaryIntMapping.BlocksStep | esec/esec/species/binary_int.py:90-93 | one loop step either stops at an incomplete block or appends the next whole block |
| BinaryIntMapping.BinaryIntegerIndividual.constructor | esec/esec/species/binary_int.py:67-79 | the bounds are the phenomes of the all-zero and all-one genomes of the same length, and the genome is restored |
| BinaryIntMapping.BinaryIntegerIndividual.Phenome | esec/esec/species/binary_int.py:83-95 | the cached phenome equals the phenome of the genome |
| BinaryIntMapping.OnesComplementBounds | esec/esec/species/binary_int.py:71-79 | with ones complement each phenome value lies between the lower bound 0 and the upper bound 2^bits - 1 |
| BinaryIntMapping.CountBounds | esec/esec/species/binary_int.py:71-79 | with counting each phenome value lies between the lower bound 0 and the upper bound `bits` |
| BinarySpecies.FixedBlocksShape | esec/esec/species/binary.py:170-174 | with a fixed block size the loop takes floor(len/size) whole consecutive blocks, block k being genes [k*size, (k+1)*size) |
| BinarySpecies.Scale | esec/esec/species/binary.py:180 | each phenome value is offset + resolution times its count |
| BinarySpecies.CountAll | esec/esec/species/binary.py:168-173 | each block contributes the number of its ones, in block order |
| BinarySpecies.PerValueCounts | esec/esec/species/binary.py:165-169 | the per-value loop counts the ones of each block cut by `bits_per_value`, stopping at the first incomplete block |
| BinarySpecies.FixedCounts | esec/esec/species/binary.py:170-174 | the fixed-size while loop counts the ones of each whole block |
| BinarySpecies.Phenome | esec/esec/species/binary.py:159-181 | the phenome property computes the phenome specification for list, fixed and zero block sizes |
| BinarySpecies.BlocksStepCounts | esec/esec/species/binary.py:166-169 | one per-value step stops at an incomplete block or appends that block's count |
| BinarySpecies.FixedPhenomeLength | esec/esec/species/binary.py:170-174 | with a fixed block size the phenome has floor(len/bits) entries |
| BinarySpecies.FixedPhenomeValue | esec/esec/species/binary.py:172-180 | entry k is offset + resolution times the ones in genes [k*bits, (k+1)*bits) |
| BinarySpecies.WholePhenome | esec/esec/species/binary.py:175-180 | block size 0 gives one value from the whole genome's count |
| BinarySpecies.Invert | esec/esec/species/binary.py:464 | inversion keeps the length and maps every gene g to 1 - g |
| BinarySpecies.InvertInvolution | esec/esec/species/binary.py:464 | inverting twice restores the genome |
| BinarySpecies.GapCut | esec/esec/species/binary.py:507-513 | the cut points lie in the genome and span `length` genes, or the whole genome when it is not longer than `length` |
| BinarySpecies.GapInvert | esec/esec/species/binary.py:514 | gap inversion keeps the length and flips exactly the genes in [cut1, cut2) |
| BinarySpecies.GapInvertInvolution | esec/esec/species/binary.py:514 | repeating the same gap inversion restores the genome |
| BinaryLandscape.IntToBinList | esec/esec/landscape/binary.py:26-29 | `inttobinlist(n, c)` returns c bits |
| BinaryLandscape.IntToBinListSnoc | esec/esec/landscape/binary.py:29 | the last bit is n mod 2 and the bits before it are those of n div 2 (MSB first) |
| BinaryLandscape.IntToBinListValue | esec/esec/landscape/binary.py:29 | the c bits read back as binary give n mod 2^c |
| BinaryLandscape.IntToBinListOfValue | esec/esec/landscape/binary.py:29 | converting the value of a bit block back with its own length gives the block |
| BinaryLandscape.IntToBinListExamples | esec/tests/landscape/test_binary.py:12-14 | (1, 4) gives [0,0,0,1] and (15, 8) gives [0,0,0,0,1,1,1,1] |
| BinaryLandscape.OneMax | esec/esec/landscape/binary.py:83-86 | OneMax is the number of genes equal to 1 (their multiplicity in the genome), between 0 and the length |
| BinaryLandscape.OneMaxIsCountOnes | esec/esec/landscape/binary.py:83-86 | OneMax agrees with the ones-count used by the binary species' count mapping |
| BinaryLandscape.RoyalRoad | esec/esec/landscape/binary.py:138-146 | with C = 0 the block loop cannot run (a zero step); otherwise the loop's total is the block specification |
| BinaryLandscape.FullBlockMeaning | esec/esec/landscape/binary.py:143-144 | a block scores iff it lies in the genome and all its C genes are 1 |
| BinaryLandscape.RoyalRoadCountsFullBlocks | esec/esec/landscape/binary.py:138-146 | the total is C times the number of all-ones blocks, so it lies in [0, Q*C] |
| BinaryLandscape.D3BTable | esec/esec/landscape/binary.py:169-170 | a 3-bit segment scores at most 8, and 8 exactly for 1,1,1 |
| BinaryLandscape.D3BTotal | esec/esec/landscape/binary.py:186-192 | the sum over k segments is defined iff the genome holds 3k genes (a short segment is a missing table key) |
| BinaryLandscape.GoldbergD3B | esec/esec/landscape/binary.py:186-192 | the segment loop computes the table sum |
| BinaryLandscape.NoneStaysNone | esec/esec/landscape/binary.py:189-191 | once a segment is missing, every longer sum fails too |
| BinaryLandscape.D3BMaximum | esec/esec/landscape/binary.py:160-192 | the total is at most 8N, reached exactly on the all-ones genome |
| BinaryLandscape.ClauseSatisfied | esec/esec/landscape/binary.py:432-436 | the literal loop reports a clause satisfied iff some literal holds in the genome |
| BinaryLandscape.Adapted | esec/esec/landscape/binary.py:430-439 | the adapted weights have one entry per clause |
| BinaryLandscape.CnfSat.constructor | esec/esec/landscape/binary.py:375 | the SAW weights start at 0, one per clause |
| BinaryLandscape.CnfSat.EvalSaw | esec/esec/landscape/binary.py:410-424 | the SAW fitness is the sum of the weights of the satisfied clauses |
| BinaryLandscape.CnfSat.UpdateSaw | esec/esec/landscape/binary.py:426-439 | `update_saw` replaces the weights with their adaptation to `best` |
| BinaryLandscape.AdaptedGrows | esec/esec/landscape/binary.py:439 | a weight grows by 1 iff `best` leaves its clause unsatisfied, and stays otherwise |
| BinaryLandscape.AdaptedKeepsBestFitness | esec/esec/landscape/binary.py:426-439 | adapting to `best` does not change `best`'s own SAW fitness |
| BinaryLandscape.AdaptedMonotone | esec/esec/landscape/binary.py:426-439 | adapting never lowers any genome's SAW fitness |
| BinaryLandscape.HammDist | esec/esec/landscape/binary.py:748-750 | the distance (over the zipped prefix) is at most either length |
| BinaryLandscape.HammDistSymmetric | esec/esec/landscape/binary.py:748-750 | the distance is symmetric |
| BinaryLandscape.HammDistSelfAndComplement | esec/esec/landscape/binary.py:748-762 | a word is at distance 0 from itself and at its full length from its complement |
| BinaryLandscape.Complement | esec/esec/landscape/binary.py:762 | the complement maps each bit x to 1 - x |
| BinaryLandscape.Split | esec/esec/landscape/binary.py:752-763 | the split has M slots |
| BinaryLandscape.SplitGenome | esec/esec/landscape/binary.py:752-763 | the split loop computes the split specification |
| BinaryLandscape.SplitComplements | esec/esec/landscape/binary.py:759-762 | slot M/2 + i holds the bitwise complement of slot i |
| BinaryLandscape.WordInside | esec/esec/landscape/binary.py:760 | with a full-length genome, word i is genes [i*n, i*n+n) |
| BinaryLandscape.SplitNone | esec/esec/landscape/binary.py:757-763 | a slot stays empty iff M is odd and it is the last one |
| BinaryLandscape.EccLegal | esec/esec/landscape/binary.py:765-780 | splitting the genome and scanning its slots gives the scan specification of the split genome |
| BinaryLandscape.ScanPairs | esec/esec/landscape/binary.py:773-780 | the two nested loops over the slots compute the row-major scan: a slot paired with itself or two empty slots are skipped, one empty slot raises a TypeError, the first pair closer than d answers False |
| BinaryLandscape.ScanMeaning | esec/esec/landscape/binary.py:773-780 | with every slot filled the scan succeeds and is True iff every pair of distinct slots from the current position on is at least d apart |
| BinaryLandscape.EccLegalMeaning | esec/esec/landscape/binary.py:765-780 | for even M, `legal` is True iff all pairs of distinct codewords are at least d apart |
| BinaryLandscape.EccLegalExampleClash | esec/tests/landscape/test_binary.py:65-70 | [0,0,0,1,1,1] with n=3, M=4, d=1 is illegal |
| BinaryLandscape.EccLegalExampleDistinct | esec/tests/landscape/test_binary.py:65-71 | [0,0,0,0,0,1] with n=3, M=4, d=1 is legal |
| BinaryLandscape.Selected | esec/esec/landscape/binary.py:1078 | the selected tasks are no more than the tasks or the genes |
| BinaryLandscape.MttpLegal | esec/esec/landscape/binary.py:1071-1086 | `legal` is True iff the running sum of selected task lengths never passes the deadline of the task just added |
| BinaryLandscape.SelectedAppend | esec/esec/landscape/binary.py:1078 | selection distributes over concatenation |
| BinaryLandscape.SelectedUniform | esec/esec/landscape/binary.py:1078 | the all-zero genome selects nothing and the all-one genome selects every task |
| BinaryLandscape.MakeMttp5iAsWritten | esec/esec/landscape/binary.py:1088-1108 | the table as written has 5n tasks |
| BinaryLandscape.BuildMttp5iAsWritten | esec/esec/landscape/binary.py:1092-1108 | the enumerate loop computes the as-written table (deadline d + 24*(j//5) with 1-based j) |
| BinaryLandscape.Mttp5iAsWrittenEntries | esec/esec/landscape/binary.py:1094-1106 | for n = 2, tasks 4 to 8 of the as-written table (the fifth task gets deadline 49) |
| BinaryLandscape.Mttp5iAsWrittenSelection | esec/esec/landscape/binary.py:1078 | selecting genes 3 to 7 of that table gives those five tasks |
| BinaryLandscape.SelectionLateInOrder | esec/esec/landscape/binary.py:1080-1084 | in table order those five tasks miss a deadline |
| BinaryLandscape.SelectionOnTimeByDeadline | esec/esec/landscape/binary.py:1080-1084 | ordered by deadline the same five tasks are all on time |
| BinaryLandscape.Mttp5iAsWrittenCounterexample | esec/esec/landscape/binary.py:1098-1099 | as written, task 5 has deadline 49 and task 6 deadline 29, and a schedulable selection is judged illegal |
| BinaryLandscape.MakeMttp5i | esec/esec/landscape/binary.py:1088-1108 | the corrected table has 5n tasks |
| BinaryLandscape.Mttp5iDeadlinesIncrease | esec/esec/landscape/binary.py:1091-1099 | in the corrected table (m = (j-1) div 5) deadlines strictly increase along the table |
| BinaryLandscape.MttpTasks | esec/esec/landscape/binary.py:1021-1030 | the task table exists iff the size is a positive multiple of 5 and covers the genome; for sizes other than 5 and 20 it is the repeated table as written, entry j (1-based) being base task (j-1) mod 5 offset by group j div 5 |
| BinaryLandscape.MttpTasksTen | esec/esec/landscape/binary.py:1027-1028 | for ten tasks the landscape uses the as-written table: tasks 5 and 10 are (15, 49, 100) and (15, 73, 150) |
| IntegerLandscape.ExpandBounds | esec/esec/landscape/integer.py:55-65 | the configured list (`lower_bounds` if truthy, else `bounds.lower`) is used; an unset bound becomes `size.max` copies of the platform extreme, a scalar `size.max` copies of itself, and a list is kept when it has at least `size.max` entries and is an assertion failure otherwise |
| IntegerLandscape.ScalarBoundsExpand | esec/esec/landscape/integer.py:57-63 | a non-zero scalar bound expands to `size.max` entries |
| IntegerLandscape.Legal | esec/esec/landscape/integer.py:81-89 | `legal` is True iff the length is within [size.min, size.max] and every gene (over the zipped prefix) lies within its bounds |
| IntegerLandscape.LegalChecksEveryGene | esec/esec/landscape/integer.py:86-88 | with bound lists at least as long as the genome, every gene is checked against its own bounds |
| IntegerLandscape.LegalExamples | esec/esec/landscape/integer.py:46-48 | the class's legal samples pass and its illegal samples fail for bounds 0..10 |
| IntegerLandscape.OutOfBounds | esec/esec/landscape/integer.py:87-88 | one gene outside its bounds makes the genome illegal |
| IntegerLandscape.NsumBounds | esec/esec/landscape/integer.py:130-132 | Nsum is the sum of the genes, so it lies between the sums of the bounds |
| IntegerLandscape.Robbins | esec/esec/landscape/integer.py:242-249 | the shift-and-add loop computes the big-endian base-2 accumulation of the genes |
| IntegerLandscape.RobbinsOfBits | esec/esec/landscape/integer.py:242-249 | on 0/1 genes Robbins is the plain binary value |
| IntegerLandscape.RobbinsExample | esec/esec/landscape/integer.py:247 | (0,0,1,0,1,1) evaluates to 11 |
| IntegerLandscape.RobbinsRange | esec/esec/landscape/integer.py:242-249 | with genes in [lo, hi] the value lies in [lo*(2^n - 1), hi*(2^n - 1)] |
| Utils.SafeDiv | esec/esec/utils/__init__.py:27-30 | a zero divisor gives 0; otherwise the floor quotient |
| Utils.SafeDivExamples | esec/tests/test_utils.py:5-7 | 4/2 is 2 and 1/0 is 0 |
| Utils.DictMerge | esec/esec/utils/__init__.py:112-123 | a None `second` returns the copy of `first`; otherwise the result has exactly the keys of both |
| Utils.DictMergeWins | esec/esec/utils/__init__.py:118-122 | `second` wins for each of its keys unless both values are dicts, which merge recursively; keys only in `first` keep its values |
| Utils.DictMergeIdempotent | esec/esec/utils/__init__.py:112-123 | merging a dict with itself gives it back |
| Utils.DictMergeOntoEmpty | esec/esec/utils/__init__.py:112-123 | merging onto an empty dict gives `second` |
| Utils.DictMergeExampleNested | esec/esec/utils/__init__.py:112-123 | a flat overlay replaces one key and keeps the other |
| Utils.DictMergeExample | esec/esec/utils/__init__.py:112-123 | a nested overlay merges the inner dict and adds new keys |
| Utils.AllEqual | esec/esec/utils/__init__.py:156-162 | an empty list fails (no first element); otherwise True iff every element equals the first |
| Utils.AllEqualPairwise | esec/esec/utils/__init__.py:156-162 | equal to the first element is the same as all pairwise equal |
| Utils.Pairs | esec/esec/utils/__init__.py:181-182 | a list of n elements gives n div 2 pairs |
| Utils.PairsElements | esec/esec/utils/__init__.py:181-182 | pair i is (source[2i], source[2i+1]): disjoint consecutive pairs |
| Utils.PairsCover | esec/esec/utils/__init__.py:174-188 | the pairs, flattened, are the source without an odd trailing element |
| Utils.PairsIter | esec/esec/utils/__init__.py:184-188 | the generator for other iterables yields the same pairs as the list form |
| Utils.OverlappedPairs | esec/esec/utils/__init__.py:197-198 | a list of n elements gives n pairs; an empty list fails (no `source[0]`) |
| Utils.OverlappedPairsCyclic | esec/esec/utils/__init__.py:197-198 | pair i is (source[i], source[(i+1) mod n]), the last wrapping to the first |
| Utils.ChainedPairs | esec/esec/utils/__init__.py:200-206 | chaining each item to the next gives n - 1 pairs |
| Utils.OverlappedPairsIterAsWritten | esec/esec/utils/__init__.py:200-206 | the generator as written yields only the chained pairs |
| Utils.OverlappedPairsIterCounterexample | esec/esec/utils/__init__.py:190-206 | for [1,2,3] the generator yields (1,2),(2,3) while the list form yields (1,2),(2,3),(3,1) |
| Utils.OverlappedPairsIter | esec/esec/utils/__init__.py:190-206 | the corrected generator yields the list form's pairs, closing pair included |
| ConfigDicts.SplitOn | esec/esec/utils/configdict.py:284 | `name.split('.')` yields at least one part and no part contains the separator |
| ConfigDicts.SplitJoin | esec/esec/utils/configdict.py:284 | joining the split parts with the separator gives the name back |
| ConfigDicts.SetPath | esec/esec/utils/configdict.py:282-290 | setting by a dotted name adds only the first part to the top-level keys and leaves every other top-level key unchanged |
| ConfigDicts.GetAfterSet | esec/esec/utils/configdict.py:282-300 | after a successful `set_by_name`, `get_by_name` of the same name returns the value set |
| ConfigDicts.SetCreatesPath | esec/esec/utils/configdict.py:286-289 | after a successful `set_by_name`, every proper prefix of the dotted name reads as a dictionary (missing levels were created) |
| ConfigDicts.SetFailsOnlyOnLeaf | esec/esec/utils/configdict.py:286-289 | `set_by_name` fails exactly when some proper prefix of the name holds a value that is neither None nor a dictionary |
| ConfigDicts.NothingBelowNone | esec/esec/utils/configdict.py:295-299 | below a first part reading None, setting succeeds and every proper prefix of the name read None before |
| ConfigDicts.SetIntoEmpty | esec/esec/utils/configdict.py:282-290 | setting any dotted name into an empty dictionary succeeds |
| ConfigDicts.LeafCheck | esec/esec/utils/configdict.py:116-160 | a non-nested syntax entry reports at most one error for a present value |
| ConfigDicts.ValidateFlatOk | esec/esec/utils/configdict.py:95-171 | validation against a flat syntax with distinct non-empty keys never aborts |
| ConfigDicts.ValidateFlat | esec/esec/utils/configdict.py:95-171 | for such a syntax, the unrecognised keys are exactly the scoped present keys the syntax does not name, and an absent key is reported missing iff it is not optional |
| ConfigDicts.MissingNotReported | esec/esec/utils/configdict.py:105-108 | a key the syntax does not name is never reported missing |
| ConfigDicts.ValidateExample | esec/esec/utils/configdict.py:95-171 | a dict {a:123, x:1} against {a:int, y:int, z?:int} reports only y missing and only x unrecognised |
| ConfigDicts.ConfigDict.constructor | esec/esec/utils/configdict.py:218-224 | a new dictionary holds exactly the given items |
| ConfigDicts.ConfigDict.Get | esec/esec/utils/configdict.py:174-176 | item access returns the stored value for a present key and None for an absent one |
| ConfigDicts.ConfigDict.Overlay | esec/esec/utils/configdict.py:178-207 | overlaying leaves the items equal to the recursive merge of the old items with the other dictionary |
| ConfigDicts.ConfigDict.Add | esec/esec/utils/configdict.py:218-224 | `+` returns a fresh dictionary holding the merge, leaving the left operand unchanged |
| ConfigDicts.ConfigDict.AddInPlace | esec/esec/utils/configdict.py:226-229 | `+=` returns the same object, whose items are now the merge |
| ConfigDicts.ConfigDict.SetByName | esec/esec/utils/configdict.py:282-290 | on success the items become the dotted-path update; on failure an error is returned and the items are unchanged |
| ConfigDicts.ConfigDict.GetByName | esec/esec/utils/configdict.py:292-300 | a name without dots reads like item access (dotted names: GetAfterSet) |
| ConfigDicts.AddMatchesAddInPlace | esec/esec/utils/configdict.py:218-229 | `a + b` and `a += b` produce the same items, the merge of a's old items with b |
| StrictTest.FirstViolation | esec/esec/utils/__init__.py:102-110 | no violation is found iff every strict entry can be read and is either `*` or equal to the configured value |
| StrictTest.FirstViolationIsFirst | esec/esec/utils/__init__.py:105-110 | a reported violation names a strict key whose condition is unmet and that is the first such in iteration order |
| StrictTest.CfgStrictTest | esec/esec/utils/__init__.py:102-110 | the method's loop finds the same first violation as the specification |
| Fitnesses.LexLessIrreflexive | esec/esec/fitness.py:168-170 | no value tuple is lexicographically less than itself |
| Fitnesses.LexLessTransitive | esec/esec/fitness.py:168-170 | the lexicographic order on value tuples is transitive |
| Fitnesses.LexTrichotomy | esec/esec/fitness.py:168-170 | any two value tuples are equal or exactly one is less than the other |
| Fitnesses.LexLess | esec/esec/fitness.py:168-170 | Python's tuple `<`: `b` properly extends `a`, or `a` is smaller at the first index where they differ |
| Fitnesses.Gt | esec/esec/fitness.py:150-170 | EmptyFitness is never greater and every real fitness beats it; a plain fitness is greater when its values come lexicographically after, a minimising one when they come before; a dominating fitness only beats its own class |
| Fitnesses.Eq | esec/esec/fitness.py:172-191 | equality holds between two EmptyFitness values or between real ones, and equal real fitnesses are greater than each other only for a dominating class |
| Fitnesses.Lt | esec/esec/fitness.py:196-197 | `<` never holds together with `>`, and for two fitnesses of one plain or minimising class `a < b` iff `b > a` |
| Fitnesses.Ge | esec/esec/fitness.py:199-200 | for a real fitness, `>=` is exactly the negation of `<` |
| Fitnesses.Le | esec/esec/fitness.py:202-203 | `<=` is the negation of `>`, and for one plain or minimising class it is `<` or `==` |
| Fitnesses.GtStrictOrder | esec/esec/fitness.py:150-170 | `>` on plain or minimising fitnesses is irreflexive and transitive |
| Fitnesses.MinimiseReverses | esec/esec/fitness.py:308-329 | a minimising fitness is greater exactly when the plain fitness with the same values is smaller, with the same equality |
| Fitnesses.Simple | esec/esec/fitness.py:118-123 | `simple` is the first value for a plain fitness, its negation for a minimising one, and 0 for EmptyFitness |
| Fitnesses.SimpleAgreesWithGt | esec/esec/fitness.py:118-123 | for one-value fitnesses, `>` agrees with `>` on `simple`, so larger `simple` always means fitter |
| Fitnesses.EmptyIsLeast | esec/esec/fitness.py:400-405 | EmptyFitness is less than (and never greater than) anything, equals only EmptyFitness, and every real fitness is greater than it |
| Fitnesses.DominationMeaning | esec/esec/fitness.py:415-435 | a dominating fitness is greater than another of its class iff each of its values is at most the other's; it beats EmptyFitness and itself |
| Fitnesses.DominationNeedsSameClass | esec/esec/fitness.py:433-434 | a dominating fitness is never greater than a fitness of another class |
| Fitnesses.DominationTransitive | esec/esec/fitness.py:415-435 | domination is transitive |
| Fitnesses.AddParts | esec/esec/fitness.py:252 | part-wise sums, as long as the shorter tuple (`izip`) |
| Fitnesses.SubParts | esec/esec/fitness.py:262 | part-wise differences, as long as the shorter tuple |
| Fitnesses.NegParts | esec/esec/fitness.py:255-257 | every part negated, same length |
| Fitnesses.Add | esec/esec/fitness.py:249-253 | the sum is EmptyFitness only for two EmptyFitness operands, keeps the class of the real left operand (else the right one), and for two real fitnesses is the part-wise sum over the shorter width |
| Fitnesses.Sub | esec/esec/fitness.py:259-263 | the same for the difference, part by part |
| Fitnesses.Neg | esec/esec/fitness.py:255-257 | negation keeps the class and width and negates every part |
| Fitnesses.Zeros | esec/esec/fitness.py:94-96 | the values of a fresh instance (`type(other)()`) of a built-in class, whose `defaults` are all 0: one 0 per part |
| Fitnesses.Scale | esec/esec/fitness.py:277-280 | multiplying keeps the class and length and scales every part; EmptyFitness stays empty |
| Fitnesses.EmptyIsZero | esec/esec/fitness.py:384-398 | for the built-in classes (zero defaults), adding or subtracting EmptyFitness on either side gives the other operand, and `EmptyFitness - f` is `-f` |
| Fitnesses.SubUndoesAdd | esec/esec/fitness.py:249-263 | `(a + b) - b == a` for equal-length fitnesses |
| Fitnesses.AddCommutesInParts | esec/esec/fitness.py:249-253 | `a + b` and `b + a` have the same values |
| Fitnesses.NegInvolution | esec/esec/fitness.py:255-257 | negating twice gives the fitness back |
| Fitnesses.Accumulator.constructor | esec/esec/fitness.py:78-111 | an accumulator starts with the class and values of the given fitness |
| Fitnesses.Accumulator.Value | esec/esec/fitness.py:78-111 | the accumulated value is always a real fitness holding the current parts |
| Fitnesses.Accumulator.AddInPlace | esec/esec/fitness.py:265-269 | after `+=`, the value is the sum of the old value and the operand |
| Fitnesses.Accumulator.SubInPlace | esec/esec/fitness.py:271-275 | after `-=`, the value is the old value minus the operand |
| Fitnesses.AccumulateRoundTrip | esec/esec/fitness.py:265-275 | `+=` then `-=` of the same equal-length fitness restores the accumulator |
| SequenceSpecies.DupsCount | esec/esec/species/sequence.py:61-63 | the number of repeated genes plus the number of distinct genes is the genome's length |
| SequenceSpecies.DupsZero | esec/esec/species/sequence.py:61-63 | a genome has no repeated genes iff its genes are distinct |
| SequenceSpecies.DupsMonotone | esec/esec/species/sequence.py:139-146 | repeats in a prefix never decrease as the prefix grows, and strictly increase past a repeated position |
| SequenceSpecies.Legal | esec/esec/species/sequence.py:61-63 | `legal` (the set of genes as large as the genome) holds iff no gene occurs twice |
| SequenceSpecies.Range | esec/esec/species/sequence.py:142 | `set(xrange(n))` holds exactly 0 .. n-1 |
| SequenceSpecies.MissingBelow | esec/esec/species/sequence.py:156 | `sorted(needs - has)` lists in increasing order the values below n absent from the genome |
| SequenceSpecies.MissingBelowCount | esec/esec/species/sequence.py:142-156 | the missing values and the genome's values below n together number n |
| SequenceSpecies.EnoughMissing | esec/esec/species/sequence.py:155-158 | there are always at least as many missing values as repeated positions, so `wants.pop(0)` never runs out |
| SequenceSpecies.EnoughWantsFromCount | esec/esec/species/sequence.py:155-158 | as many wanted values as repeats are enough to replace every repeat |
| SequenceSpecies.Repaired | esec/esec/species/sequence.py:155-158 | the sequential repair keeps the genome's length |
| SequenceSpecies.RepairedDistinct | esec/esec/species/sequence.py:144-158 | replacing every later occurrence of a gene by distinct, absent wanted values leaves no gene repeated |
| SequenceSpecies.RepairedIsPermutation | esec/esec/species/sequence.py:127-176 | a genome with genes below its length is repaired into a permutation of 0 .. n-1 |
| SequenceSpecies.RepairedLegal | esec/esec/species/sequence.py:133-137 | a legal genome is passed through unchanged |
| SequenceSpecies.Repair | esec/esec/species/sequence.py:127-176 | the repair loop reports a repair exactly for illegal genomes, returns the specified repaired genome, and that genome is legal |
| SequenceSpecies.MissingExample | esec/esec/species/sequence.py:156 | for [1, 1, 0] the missing values are [2] |
| SequenceSpecies.RepairExample | esec/esec/species/sequence.py:155-158 | [1, 1, 0] is repaired to [1, 2, 0]: the second 1 is replaced |
| SequenceSpecies.GetLength | esec/esec/species/sequence.py:66-77 | an absent length falls back to `item_count`, a size dictionary gives its 'exact' entry, and the result is positive or an error |
| SequenceSpecies.InitForward | esec/esec/species/sequence.py:105-114 | `init_forward` builds the genome 0, 1, ..., n-1 |
| SequenceSpecies.InitForwardLegal | esec/esec/species/sequence.py:105-114 | that genome is legal and holds exactly 0 .. n-1 |
| CharLexer.Strip | esec/esdlc/lexer.py:66 | the stripped source neither starts nor ends with white space |
| CharLexer.StripLeftEnds | esec/esdlc/lexer.py:66 | left-stripping removes a prefix and leaves no leading white space |
| CharLexer.StripRightEnds | esec/esdlc/lexer.py:66 | right-stripping removes a suffix and leaves no white space at either end |
| CharLexer.WordToken | esec/esdlc/lexer.py:120-137 | a finished word's token keeps the word's length (keywords and constants only change tag or case) |
| CharLexer.KeywordsIgnoreCase | esec/esdlc/lexer.py:129-137 | keyword tags ignore case; EVALUATE is tagged EVAL; END keeps its text under tag END |
| CharLexer.ExponentSign | esec/esdlc/lexer.py:116-118 | a number takes a sign only right after 'e' or 'E' |
| CharLexer.IdleStepAdvances | esec/esdlc/lexer.py:69-101 | an idle iteration makes progress, yields at most one token at its own position, and advances the line exactly on an end of statement |
| CharLexer.WordStepAdvances | esec/esdlc/lexer.py:103-139 | an iteration with a pending word makes progress and yields at most the word's token at the word's position |
| CharLexer.StepAdvances | esec/esdlc/lexer.py:67-139 | every loop iteration makes progress, so `while i <= len(source)` terminates |
| CharLexer.Run | esec/esdlc/lexer.py:67-139 | the loop ends one past the end of the source in a well-formed state |
| CharLexer.RunOrdered | esec/esdlc/lexer.py:67-139 | the loop's tokens come in (line, column) order between the start and end positions, columns from 1, and the line count grows by the ends of statement yielded |
| CharLexer.EosCountConcat | esec/esdlc/lexer.py:93-97 | ends of statement count additively over concatenated token runs |
| CharLexer.OrderedConcat | esec/esdlc/lexer.py:42-43 | two ordered token runs separated by a position concatenate to an ordered run |
| CharLexer.Lex | esec/esdlc/lexer.py:54-141 | `_tokenise` refuses only the empty source and always ends with an end-of-statement token |
| CharLexer.Finish | esec/esdlc/lexer.py:141 | the final token is an end of statement |
| CharLexer.LexOrdered | esec/esdlc/lexer.py:54-141 | all tokens are in (line, column) order with lines and columns from 1 |
| CharLexer.IdleStepLines | esec/esdlc/lexer.py:93-98 | an idle iteration's line advance equals the line breaks it consumes ("\r\n" counting once) |
| CharLexer.WordStepLines | esec/esdlc/lexer.py:103-139 | an iteration with a pending word never consumes a line break nor changes the line |
| CharLexer.RunLines | esec/esdlc/lexer.py:67-139 | the loop's final line is the start line plus the line breaks in the rest of the source |
| CharLexer.LexEos | esec/esdlc/lexer.py:67-141 | the ends of statement yielded number the loop's final line |
| CharLexer.LexCountsLines | esec/esdlc/lexer.py:54-141 | the number of end-of-statement tokens is one more than the line breaks in the stripped source |
| CharLexer.Tokenise | esec/esdlc/lexer.py:54-141 | the generator loop yields exactly the tokens the specification gives |
| CharLexer.TrailingNumberLostAsWritten | esec/esdlc/lexer.py:112-118 | as written, the source "1" yields only the final end of statement: the number is lost |
| CharLexer.TrailingNameLostAsWritten | esec/esdlc/lexer.py:124-127 | as written, the source "a" yields only the final end of statement: the name is lost |
| CharLexer.StrayTokenAsWritten | esec/esdlc/lexer.py:74-76 | as written, the source "+" yields an extra token with empty tag and text at the end |
| CharLexer.TrailingNumberKept | esec/esdlc/lexer.py:112-122 | with the end of input handled, "1" yields the number token and then the end of statement |
| CharLexer.ConstantEndSteps | esec/esdlc/lexer.py:129-139 | with the end handled, a pending TRUE at the end of the source is yielded as the constant TRUE, and the loop stops |
| CharLexer.TrailingConstantKept | esec/esdlc/lexer.py:129-141 | with the end handled, "TRUE" yields a constant token and then the end of statement |
| CharLexer.EndFixedEmitsPending | esec/esdlc/lexer.py:119-139 | with the end handled, a word pending at the end is yielded and the last iteration yields nothing |
| CharLexer.Statements | esec/esdlc/lexer.py:154-169 | the statement lines hold exactly the kept tokens, no line is empty or holds a continuation mark, an end of statement only closes a line, and every line but the last ends with one, so the stream is cut right after each end of statement |
| CharLexer.JoinLines | esec/esdlc/lexer.py:147-152 | a missing source and an empty first line are errors; a single line is the source as is; several lines are joined with nothing between them when the first ends in '\r' or '\n', and with '\n' otherwise |
| CharLexer.JoinLinesExamples | esec/esdlc/lexer.py:150-152 | `['a', 'b']` and `['a\n', 'b']` both give `'a\nb'` |
| CharLexer.Concat | esec/esdlc/lexer.py:151-152 | `sep.join`: empty for no parts; otherwise it starts with the first part and is as long as all parts plus one separator fewer than there are parts |
| CharLexer.ConcatAppend | esec/esdlc/lexer.py:151-152 | joining two non-empty lists of parts is joining each with one separator between |
| AstLexer.TokenOrder | esec/esdlc/ast/lexer.py:97-98 | tokens are ordered by (line, column): `>` is the converse of `<`, which is irreflexive, transitive and total up to equal positions, and equal tokens are neither less nor greater |
| AstLexer.TokenOrderExample | esec/tests/esdlc/test_lexer.py:3-19 | equal fields compare equal, a different value makes tokens unequal without ordering them, and a later column orders them |
| AstLexer.Tokenise | esec/esdlc/ast/lexer.py:213-241 | an empty source gives a single end of statement at (1, 1); otherwise the tokens are the line-by-line stream, a trailing continuation replacing the line's end of statement |
| AstLexer.AppendLine | esec/esdlc/ast/lexer.py:229-240 | one pass of the loop keeps the tokens already read, adds the line's contribution (its tokens without a final continuation, or with an end of statement), and never leaves a continuation last |
| AstLexer.StreamSplit | esec/esdlc/ast/lexer.py:227-241 | the stream built line by line up to line k, followed by the stream of the remaining lines, is the whole stream |
| AstLexer.StreamWhole | esec/esdlc/ast/lexer.py:227-241 | the stream built line by line over all the lines is the whole stream |
| AstLexer.EosCountConcat | esec/esdlc/ast/lexer.py:236-240 | ends of statement count additively over concatenated token runs |
| AstLexer.StreamStatements | esec/esdlc/ast/lexer.py:228-241 | the stream holds one end of statement per line not continued, and no continuation token at all |
| AstLexer.NoEos | esec/esdlc/ast/lexer.py:228-241 | a run without end-of-statement tokens counts none |
| AstLexer.ContinuationExample | esec/esdlc/ast/lexer.py:236-240 | a line ending in a continuation joins the next line into one statement with a single end of statement |
| AstLexer.Advance | esec/esdlc/ast/lexer.py:179-189 | `move_next` moves forward by one, or with comment skipping past exactly the comments that follow, stopping on a non-comment or the end |
| AstLexer.SkipFrom | esec/esdlc/ast/lexer.py:186-188 | skipping passes over only comment tokens and stops on a non-comment or the end |
| AstLexer.TokenReader.constructor | esec/esdlc/ast/lexer.py:149-157 | a new reader holds the tokens with an empty location stack, positioned at the first token (the first non-comment when skipping comments) |
| AstLexer.TokenReader.Current | esec/esdlc/ast/lexer.py:159-171 | `current` is None exactly when the reader is off the tokens, otherwise the token at the position |
| AstLexer.TokenReader.Rest | esec/esdlc/ast/lexer.py:163-166 | `rest` is the suffix from the current token, or empty off the tokens |
| AstLexer.TokenReader.Last | esec/esdlc/ast/lexer.py:173-177 | `last` is the final token, or None when there are no tokens |
| AstLexer.TokenReader.MoveNext | esec/esdlc/ast/lexer.py:179-189 | `move_next` sets the position to the advance from the old one and changes nothing else |
| AstLexer.TokenReader.PushLocation | esec/esdlc/ast/lexer.py:200-202 | `push_location` pushes the position and changes nothing else |
| AstLexer.TokenReader.PopLocation | esec/esdlc/ast/lexer.py:204-206 | `pop_location` restores the topmost stored position and pops it |
| AstLexer.TokenReader.DropLocation | esec/esdlc/ast/lexer.py:208-210 | `drop_location` pops the stack and keeps the position |
| AstLexer.TokenReader.Peek | esec/esdlc/ast/lexer.py:191-198 | `peek` returns the token `move_next` would reach, leaving the position and the stack as they were |
| ExprParser.LeftFoldAt | esec/esdlc/ast/__init__.py:359-367 | one iteration of the left-to-right reduction loop, taking or skipping an operator, keeps the fold still to do unchanged |
| ExprParser.Reduce | esec/esdlc/ast/__init__.py:359-377 | the in-place `_reduce`/`_reduce_unary` loop leaves the list as the left fold of the class |
| ExprParser.RightFoldAt | esec/esdlc/ast/__init__.py:379-386 | one iteration of the right-to-left loop keeps the fold still to do unchanged |
| ExprParser.ReduceReverse | esec/esdlc/ast/__init__.py:379-386 | the in-place `_reduce_reverse` loop leaves the list as the right fold of the class |
| ExprParser.ReduceAll | esec/esdlc/ast/__init__.py:388-394 | the seven reductions in order give the specified reduced list |
| ExprParser.LeftFoldOps | esec/esdlc/ast/__init__.py:359-367 | a binary left reduction removes every operator of its class and keeps the list alternating |
| ExprParser.RightFoldOps | esec/esdlc/ast/__init__.py:379-386 | the right reduction removes every operator of its class and keeps the list alternating |
| ExprParser.NoOpsSingle | esec/esdlc/ast/__init__.py:397 | an alternating list with no operators left has exactly one entry |
| ExprParser.ReducedSingle | esec/esdlc/ast/__init__.py:388-397 | when every operator is one the reductions know, the reductions leave a single entry (`len(expr) == 1`) |
| ExprParser.LeftFoldHead | esec/esdlc/ast/__init__.py:359-377 | a left reduction keeps a missing leading operand only in front of a sign, so the result stays buildable |
| ExprParser.LeftFoldLength | esec/esdlc/ast/__init__.py:359-377 | a left reduction keeps the list's length odd |
| ExprParser.RightFoldHead | esec/esdlc/ast/__init__.py:379-386 | the right reduction keeps the list buildable in the same sense |
| ExprParser.ReducedHead | esec/esdlc/ast/__init__.py:388-398 | after all reductions the single entry is a node, never None (`isinstance(expr[0], Node)`) |
| ExprParser.LeftFoldTake | esec/esdlc/ast/__init__.py:363-365 | a taken operator combines its two operands into the next left operand |
| ExprParser.LeftFoldSkip | esec/esdlc/ast/__init__.py:366-367 | an operator the class does not take is stepped over with its left operand |
| ExprParser.RightFoldTake | esec/esdlc/ast/__init__.py:383-385 | the right reduction combines the last three entries when it takes their operator |
| ExprParser.LeftAssociative | esec/esdlc/ast/__init__.py:359-367 | a chain of two operators of a left class nests to the left |
| ExprParser.RightAssociative | esec/esdlc/ast/__init__.py:379-386 | a chain of two '^' nests to the right |
| ExprParser.LeftFoldNoMatch | esec/esdlc/ast/__init__.py:359-367 | a left reduction with no operator of its class leaves the list unchanged |
| ExprParser.RightFoldNoMatch | esec/esdlc/ast/__init__.py:379-386 | the right reduction with no '^' leaves the list unchanged |
| ExprParser.EarlyStagesIdle | esec/esdlc/ast/__init__.py:388-391 | for a chain of signs and products, the first four reductions change nothing |
| ExprParser.ProductOnRight | esec/esdlc/ast/__init__.py:392-393 | `a + b * c` groups as `a + (b * c)` |
| ExprParser.ProductOnLeft | esec/esdlc/ast/__init__.py:392-393 | `a * b + c` groups as `(a * b) + c` |
| ExprParser.LeadingSign | esec/esdlc/ast/__init__.py:322-323 | a leading sign becomes a unary node with no left operand |
| ExprParser.SignAfterOperator | esec/esdlc/ast/__init__.py:352-390 | a sign right after '%' becomes a unary node, the right operand of the '%' |
| ExprParser.CollectPairs | esec/esdlc/ast/__init__.py:329-357 | the loop appends (operator, operand) pairs whose operators are the items' operators, calls or indexing |
| ExprParser.CollectErrors | esec/esdlc/ast/__init__.py:329-357 | the loop fails only with a syntax, call or bracket error |
| ExprParser.CollectAlternates | esec/esdlc/ast/__init__.py:318-357 | the list built from the first operand and the loop alternates operands and operators, with a missing operand only before a sign |
| ExprParser.ParseReducesFully | esec/esdlc/ast/__init__.py:318-399 | with only known operators, the closing assertions never fail, and parsing succeeds iff there is no expression or collecting succeeds |
| ExprParser.Parse | esec/esdlc/ast/__init__.py:318-399 | the loop-and-reduce method returns exactly the specified parse |
| Verifier.CalculateVariables | esec/esdlc/verifier.py:51-135 | the per-node loop computes the block's variables in and out as the specified summary |
| Verifier.ReplayAppend | esec/esdlc/verifier.py:74-131 | summarising two runs of reads and writes one after the other equals summarising their concatenation |
| Verifier.ApplyReplays | esec/esdlc/verifier.py:75-113 | each statement's bookkeeping acts like replaying its reads and writes in order |
| Verifier.SizesReplay | esec/esdlc/verifier.py:95-104 | the group-size bookkeeping acts like replaying the sizes' reads and writes |
| Verifier.FuncsReplay | esec/esdlc/verifier.py:110-112 | an `eval`'s function bookkeeping acts like replaying the functions' reads and writes |
| Verifier.ReplayReadsFirst | esec/esdlc/verifier.py:56-69 | a name is an input iff it is read before any write to it; it is an output iff some step writes it |
| Verifier.SummaryReplays | esec/esdlc/verifier.py:74-131 | a whole block's summary, nested blocks included, is the replay of its flattened reads and writes |
| Verifier.BlockInputs | esec/esdlc/verifier.py:51-135 | a block's input variables are exactly those read before being written in it; its outputs exactly those written in it |
| Verifier.AllInputs | esec/esdlc/verifier.py:155-160 | the globals gathered from the blocks are exactly the names some block reads as input |
| Verifier.CalculateConstants | esec/esdlc/verifier.py:155-174 | a constant is a global (initialiser output or some block's input) that no block writes |
| Verifier.DestNamesSnoc | esec/esdlc/verifier.py:285 | the destination names of a longer prefix add the new destination's name |
| Verifier.RepeatedCount | esec/esdlc/verifier.py:285-294 | there are as many repeated-destination errors as destinations beyond the distinct names |
| Verifier.RepeatedExactly | esec/esdlc/verifier.py:285-294 | a repeated-destination error is reported exactly for each destination whose name already appeared earlier |
| Verifier.UnusedExactly | esec/esdlc/verifier.py:296-302 | an unused-group error is reported exactly for each destination after the first unbounded one |
| Verifier.SizedSourcesExactly | esec/esdlc/verifier.py:311-314 | an unexpected-size error is reported exactly for each source group given a size |
| Verifier.FindRepeated | esec/esdlc/verifier.py:285-294 | the loop reports the specified repeated destinations |
| Verifier.FindUnused | esec/esdlc/verifier.py:296-302 | the loop reports the specified unused groups |
| Verifier.FindListSizes | esec/esdlc/verifier.py:304-307 | the loop reports every destination whose size is a list |
| Verifier.FindSizedSources | esec/esdlc/verifier.py:311-314 | the loop reports the specified sized sources |
| Verifier.CheckStatement | esec/esdlc/verifier.py:281-314 | a FROM/JOIN statement's errors are its repeated, unused, list-sized and sized-source errors in that order |
| Verifier.VerifyGroups | esec/esdlc/verifier.py:276-319 | a block's group errors are its statements' errors in order, nested blocks included |
| Verifier.StmtVerifyGroups | esec/esdlc/verifier.py:279-316 | one statement's group errors: the four checks of a FROM or JOIN, the errors of a nested block or REPEAT body, none otherwise |
| ConsoleMonitor.FirstTriggered | esec/esec/monitors/consolemonitor.py:731-744 | the end code chosen is one of the codes tested |
| ConsoleMonitor.FirstTriggeredMeans | esec/esec/monitors/consolemonitor.py:731-744 | the `elif` chain picks a code iff its condition holds and no earlier condition does |
| ConsoleMonitor.FirstTriggeredNone | esec/esec/monitors/consolemonitor.py:731-744 | no code is picked iff no condition holds |
| ConsoleMonitor.CheckOrder | esec/esec/monitors/consolemonitor.py:731-744 | the verdict is EXCEPTION, GEN_LIMIT, FIT_LIMIT, STABLE_LIMIT or UNIQUE_LIMIT exactly when that condition holds and none tested before it does |
| ConsoleMonitor.NoVerdict | esec/esec/monitors/consolemonitor.py:731-746 | there is no verdict iff no end condition holds |
| ConsoleMonitor.BreedStats | esec/esec/monitors/consolemonitor.py:650-657 | after `on_pre_breed` the generation and stable counters are one larger, no `local_` key is left and every other key is kept |
| ConsoleMonitor.WithoutLocalIdempotent | esec/esec/monitors/consolemonitor.py:655-657 | dropping the `local_` keys twice is the same as once |
| ConsoleMonitor.DropLocal | esec/esec/monitors/consolemonitor.py:655-657 | the deletion loop leaves exactly the non-`local_` entries |
| ConsoleMonitor.DropGroupLocals | esec/esec/monitors/consolemonitor.py:659-662 | each listed group loses its `local_` entries; other groups are untouched |
| ConsoleMonitor.Time | esec/esec/monitors/consolemonitor.py:800-811 | `_time` yields minutes and seconds below 60 and milliseconds below 1000 that recombine to the elapsed time |
| ConsoleMonitor.TimeInverse | esec/esec/monitors/consolemonitor.py:800-811 | splitting the milliseconds of a normalised reading gives that reading back |
| ConsoleMonitor.StripAll | esec/esec/monitors/consolemonitor.py:454 | every part of a report is stripped |
| ConsoleMonitor.ThenOk | esec/esec/monitors/consolemonitor.py:453-475 | gathering columns is associative |
| ConsoleMonitor.CommandsStep | esec/esec/monitors/consolemonitor.py:454-473 | the names of a report are handled one after the other, in order |
| ConsoleMonitor.ReportSound | esec/esec/monitors/consolemonitor.py:453-475 | every column of a parsed report comes from a format table entry |
| ConsoleMonitor.CommandsSound | esec/esec/monitors/consolemonitor.py:454-473 | every column gathered from a list of names comes from a format table entry |
| ConsoleMonitor.CommandSound | esec/esec/monitors/consolemonitor.py:455-473 | every column one name contributes comes from a format table entry |
| ConsoleMonitor.UnknownCommandFails | esec/esec/monitors/consolemonitor.py:470-473 | a name in neither table makes the whole parse fail |
| ConsoleMonitor.UnknownReportFails | esec/esec/monitors/consolemonitor.py:454-473 | a report holding a name in neither table fails |
| ConsoleMonitor.AliasExpands | esec/esec/monitors/consolemonitor.py:456-460 | a name whose descriptor is a string parses as that string |
| ConsoleMonitor.SplitWithout | esec/esec/monitors/consolemonitor.py:454 | a report without '+' is a single part |
| ConsoleMonitor.SplitAppend | esec/esec/monitors/consolemonitor.py:454 | splitting `a + '+' + b` gives the parts of a followed by those of b |
| ConsoleMonitor.CommandsAppend | esec/esec/monitors/consolemonitor.py:454-473 | the columns of concatenated name lists are those of the first list followed by the second |
| ConsoleMonitor.StripAllAppend | esec/esec/monitors/consolemonitor.py:454 | stripping distributes over concatenation |
| ConsoleMonitor.ReportAppend | esec/esec/monitors/consolemonitor.py:453-475 | the report `a+b` has the columns of a followed by those of b, and fails if either does |
| ConsoleMonitor.Monitor.constructor | esec/esec/monitors/consolemonitor.py:259-360 | a new monitor keeps its limits and format tables and starts from the reset state |
| ConsoleMonitor.Monitor.ParseReport | esec/esec/monitors/consolemonitor.py:435-475 | the parsing loop gives exactly the specified columns or error |
| ConsoleMonitor.Monitor.ParseCommand | esec/esec/monitors/consolemonitor.py:455-473 | one name's handling gives exactly the specified columns or error |
| ConsoleMonitor.Monitor.OnPreReset | esec/esec/monitors/consolemonitor.py:617-632 | reset zeroes the counters, clears the groups, gives the primary group an empty best, and clears the end code and stop flag |
| ConsoleMonitor.Monitor.OnException | esec/esec/monitors/consolemonitor.py:715-723 | an exception sets the stop flag and the EXCEPTION end code and changes no statistic |
| ConsoleMonitor.Monitor.ShouldTerminate | esec/esec/monitors/consolemonitor.py:725-746 | a set end code is kept; otherwise it becomes the verdict of the limits; the result says whether an end code is set; statistics are untouched |
| ConsoleMonitor.Monitor.OnPreBreed | esec/esec/monitors/consolemonitor.py:650-662 | the counters are incremented and every `local_` key is dropped, at the top level and in each group; nothing else changes |
| ConsoleMonitor.BreedClearsUnique | esec/esec/monitors/consolemonitor.py:650-657 | right after `on_pre_breed` the unique-individuals limit cannot fire, since `local_unique` is gone |
| IntegerSpecies.ConvertBoundsMeaning | esec/esec/species/integer.py:93-99 | converting fails only for an empty list that needs padding; the result covers `length` genes (more only for a longer list, kept as is) and holds each gene's bound, the last entry repeated past the list's end |
| IntegerSpecies.LengthsMeaning | esec/esec/species/integer.py:105-117 | a non-zero exact length fixes both ends; otherwise shortest must be positive and longest at least shortest, each failure with its own assertion |
| IntegerSpecies.PlanShape | esec/esec/species/integer.py:105-128 | an accepted plan has 0 < shortest <= longest, every bound list covers longest genes, lowest never exceeds highest, and absent mutation bounds default to lowest and highest |
| IntegerSpecies.InitShape | esec/esec/species/integer.py:130-139 | every genome initialised has a length between shortest and longest and each gene between its lowest and highest, strictly below highest for the incrementing initialiser |
| IntegerSpecies.IncrementCounts | esec/esec/species/integer.py:244-256 | the incrementing initialiser starts at lowest and counts up by one, restarting at lowest when highest is reached |
| IntegerSpecies.ModSmall | esec/esec/species/integer.py:256 | a remainder below the divisor survives adding multiples of the divisor |
| IntegerSpecies.IncrementNeedsRange | esec/esec/species/integer.py:256 | a gene whose lowest equals its highest makes the incrementing initialiser fail (division by zero) |
| IntegerSpecies.ClampMeaning | esec/esec/species/integer.py:394-396 | clamping lands within the bounds, leaves in-range values alone, and is idempotent |
| IntegerSpecies.MutateDelta | esec/esec/species/integer.py:376-398 | the mutation loop keeps the genome length, sets each visited gene to its clamped step, leaves genes beyond the bounds lists alone, and sums one step per visited gene |
| IntegerSpecies.StepForSnoc | esec/esec/species/integer.py:390-393 | with distinct visited indices, a newly visited gene takes its own step direction and no other gene's step changes |
| IntegerSpecies.StepForAppend | esec/esec/species/integer.py:390-393 | a gene's step is that of its first visit |
| IntegerSpecies.StepForAbsent | esec/esec/species/integer.py:390-391 | an unvisited gene has no step |
| IntegerSpecies.UnvisitedUnchanged | esec/esec/species/integer.py:381-391 | a gene the mutation does not visit keeps its value |
| IntegerSpecies.MutationKeepsBounds | esec/esec/species/integer.py:393-396 | a gene within its bounds stays within them after mutation |
| GrammaticalEvolution.ParseRuleText | esec/esec/species/ge.py:266-286 | the character loop turns one production's text into the specified symbols |
| GrammaticalEvolution.ParseRules | esec/esec/species/ge.py:262-288 | the constructor's loop parses every production of every rule and keeps the rule names |
| GrammaticalEvolution.ScanAppend | esec/esec/species/ge.py:269-284 | scanning two texts one after the other is scanning their concatenation |
| GrammaticalEvolution.ScanPlain | esec/esec/species/ge.py:276-284 | outside quotes, characters other than space and quote accumulate into the current name |
| GrammaticalEvolution.ScanQuoted | esec/esec/species/ge.py:270-271 | inside quotes, every character but the quote is literal text |
| GrammaticalEvolution.ScanShow | esec/esec/species/ge.py:269-305 | scanning the text `__str__` writes for a part adds exactly that part |
| GrammaticalEvolution.ScanUnparse | esec/esec/species/ge.py:269-305 | scanning the text written for a production gives back its parts with nothing pending |
| GrammaticalEvolution.ParseUnparse | esec/esec/species/ge.py:266-305 | parsing the text `__str__` writes for a production gives the production back |
| GrammaticalEvolution.ParseLastWord | esec/esec/species/ge.py:285 | a name at the very end is kept without a trailing space, and a quoted text parses to a literal |
| GrammaticalEvolution.Reverse | esec/esec/species/ge.py:365-369 | `reversed` keeps the length and mirrors the order |
| GrammaticalEvolution.Grammar.constructor | esec/esec/species/ge.py:262-290 | a grammar holds the parsed productions of the given rules |
| GrammaticalEvolution.Grammar.Eval | esec/esec/species/ge.py:310-375 | the evaluation loop gives exactly the specified outcome |
| GrammaticalEvolution.Grammar.Expand | esec/esec/species/ge.py:345-371 | one iteration of the loop makes the specified step |
| GrammaticalEvolution.SingleProduction | esec/esec/species/ge.py:363-365 | a rule with one production is expanded in place without reading a codon |
| GrammaticalEvolution.SeveralProductions | esec/esec/species/ge.py:366-375 | a rule with several productions reads one codon, counts it, and expands the production the codon selects modulo their number; with no codon left evaluation stops |
| GrammaticalEvolution.TerminalReadsOneCodon | esec/esec/species/ge.py:351-353 | TERMINAL reads one codon, counts it, and emits a terminal reference to it |
| GrammaticalEvolution.StackOverflowAborts | esec/esec/species/ge.py:345-346 | a stack deeper than 500 aborts with no program |
| GrammaticalEvolution.StepCounted | esec/esec/species/ge.py:330-375 | each step keeps the count of effective codons equal to the codons read; running out happens exactly one past the supply |
| GrammaticalEvolution.CodonBudget | esec/esec/species/ge.py:330-375 | a finished or aborted evaluation used at most (wrap + 1) times the genome's codons; running out reports one more |
| GrammaticalEvolution.Texts | esec/esec/species/ge.py:370-371 | the pieces written for literals are their texts, in order |
| GrammaticalEvolution.RunLiteral | esec/esec/species/ge.py:370-371 | a literal on top of the stack is appended to the output |
| GrammaticalEvolution.LiteralsInOrder | esec/esec/species/ge.py:365-371 | a production of literals pushed reversed is written out in its own order |
| Tgp.EndFrom | esec/esec/species/tgp.py:1376-1379 | the loop's end stays between where it started and the program's length |
| Tgp.BranchEnd | esec/esec/species/tgp.py:1373-1380 | `_find_end` returns the start itself past the end, and otherwise an end after the start and within the program |
| Tgp.FindEnd | esec/esec/species/tgp.py:1359-1380 | the counting loop returns the specified branch end |
| Tgp.EndFromTree | esec/esec/species/tgp.py:1376-1379 | counting over a whole well-formed subtree consumes exactly that subtree and satisfies one open parameter |
| Tgp.EndFromTrees | esec/esec/species/tgp.py:1376-1379 | counting over a run of subtrees consumes them all and satisfies one open parameter per subtree |
| Tgp.BranchEndOfTree | esec/esec/species/tgp.py:1359-1380 | where a well-formed subtree starts, `_find_end` returns the index just after it, so `program[start:end]` is the entire branch |
| Tgp.EndFromCloses | esec/esec/species/tgp.py:1376-1379 | before the loop's end some parameter is still open, and at an end inside the program none is |
| Tgp.BranchEndMeaning | esec/esec/species/tgp.py:1373-1380 | the end returned is the first index after the start where the branch has no open parameter (or the program's end) |
| Tgp.Depth | esec/esec/species/tgp.py:465-478 | the stack-counting loop of `depth` returns the specified depth |
| Tgp.CloseTop | esec/esec/species/tgp.py:475-477 | the inner loop pops every satisfied instruction, decrementing the one beneath each time |
| Tgp.DepthRunAppend | esec/esec/species/tgp.py:467-477 | running the depth count over two program pieces is running it over their concatenation |
| Tgp.DepthRunTree | esec/esec/species/tgp.py:467-477 | a well-formed subtree read with s open instructions closes back to the enclosing stack and raises the deepest stack by its height |
| Tgp.DepthRunTrees | esec/esec/species/tgp.py:467-477 | the parameter subtrees of one instruction close that instruction and raise the deepest stack by one more than their tallest |
| Tgp.CloseLast | esec/esec/species/tgp.py:474-477 | a terminal decrements the top count, popping it and continuing below only when it reaches zero |
| Tgp.DepthOfTree | esec/esec/species/tgp.py:455-478 | the depth of a well-formed program is its tree height, and at least 1 |
| Tgp.DepthRunGrows | esec/esec/species/tgp.py:466-471 | the deepest stack seen never decreases |
| Tgp.DepthAtLeastOne | esec/esec/species/tgp.py:466 | every program, even an empty one, has depth at least 1 |
| Tgp.Edit | esec/esec/species/tgp.py:1287-1311 | the look-ahead loop of `mutate_edit` builds the specified edited program |
| Tgp.IfNotSwapped | esec/esec/species/tgp.py:1297-1308 | IF NOT X Y Z, with X, Y, Z well-formed branches, becomes IF X Z Y and editing continues after Z |
| Tgp.EditIfNot | esec/esec/species/tgp.py:1297-1308 | the IF NOT rewrite keeps the condition, then the branch after the two that follow it, then the first of them, the three found with `_find_end` |
| Tgp.EditHead | esec/esec/species/tgp.py:1309-1311 | any instruction other than NOT or IF is copied as it is |
| Tgp.NoNotNotLeft | esec/esec/species/tgp.py:1294-1296 | in a program without IF, no two adjacent NOTs are left after editing; with IF the guarantee fails, see `Tgp.IfNotKeepsNotNot` |
| Tgp.IfNotKeepsNotNot | esec/esec/species/tgp.py:1303-1308 | the branches an IF NOT rewrite moves are copied unedited: `if not not not T0 T1 T2` edits to `if not not T0 T2 T1`, which keeps a NOT NOT |
| Tgp.NotNotExamples | esec/tests/species/test_tgp.py:40-52 | `not not T0` edits to `T0`; `and not not T0 or T1 T0` to `and T0 or T1 T0` |
| Tgp.NestedNotNotExample | esec/tests/species/test_tgp.py:54-59 | `not not or T0 T1` edits to `or T0 T1` |
| Tgp.IfNotExample | esec/tests/species/test_tgp.py:61-66 | `if not T0 T2 T1` edits to `if T0 T1 T2` |
| Tgp.NestedIfNotExample | esec/tests/species/test_tgp.py:89-94 | the IF NOT rewrite with nested branches swaps the two whole branches |
| Tgp.SpliceKeepsNodes | esec/esec/species/tgp.py:1065-1070 | exchanging two slices keeps the total number of instructions and the multiset of instructions |
| Tgp.SpliceUndo | esec/esec/species/tgp.py:1065-1070 | exchanging the slices back at their new positions restores both parents |
| Tgp.CrossoverMeaning | esec/esec/species/tgp.py:1057-1082 | crossover keeps the instructions of the two parents; either returns the parents or two children no deeper than `deepest_result`; with valid picks it is exactly the branch exchange, reverted when a child is too deep |

## Left out

- Random choices are parameters. This covers the `rand` draws of `mutate_delta`, of integer initialisation and of gap inversion, `_pick_random_node` in TGP crossover (given as optional node indices), and the per-ADF mutation rates. Random species initialisers, selectors and recombiners are not modelled.
- SequenceSpecies: only the sequential branch of `repair` is modelled; the random-order branch draws from `rand`.
- The process clock is a parameter. `_get_ms` becomes a `Clock` value, and `_time` gets the elapsed milliseconds.
- All stream and file output is left out: the report printing, `on_post_reset` output, `on_notify` text, `_status` and `make_call`. `_read_stats` method references (`stats.x.y()`) are read as plain dictionary paths.
- ConsoleMonitor.Monitor.ParseReport: bounded by a `fuel` argument where the source relies on Python's recursion limit. Running out gives `TooDeep` instead of a RuntimeError.
- GrammaticalEvolution.Grammar.Eval: bounded by a `fuel` step count, because the source loop need not terminate (a rule `A ::= A` expands forever without reading a codon). The text of a TERMINAL, `T[%d%%len(T)] `, is kept as a `Terminal(codon)` piece and not formatted into characters.
- Tgp: `evaluate` is left out, because it calls opaque instruction callables. Instructions are identified by constructor and name, not by object identity.
- AstLexer: `Token.parse`, the regular-expression scanner of one line, is left out. `tokenise` takes each line's token list and its end column as input.
- ConfigDicts: the string constructor (which uses `eval`), `settings_split`, attribute access and pickling are left out.
- ConfigDicts.ConfigDict.GetByName: its own contract covers only names without dots. Dotted reads are characterised through `GetAfterSet` and `SetCreatesPath`.
- ConfigDicts.ValidateFlat: the exact list of unrecognised keys is proved only for flat syntaxes with distinct keys; nested syntaxes are covered by the function's general contract.
- Fitnesses: fitness parts are integers, and floating-point values are not modelled. Python's reflected-operator dispatch between unrelated classes is replaced by the explicit `Kind` of each operand.
- BinaryLandscape.CnfSat: literals are assumed to lie within the declared variable count, as the problem generator guarantees. The clause-evaluation `_eval` of MAXCUT, NK and plain CNF uses floating point and is left out.
- ExprParser.Collect: operands, call parameter lists and index expressions arrive as already-parsed `Item`s, so `parse_operand` and `parse_parameters`, and the errors they raise themselves, are not part of this model; `ExprParser.Parse` and `ExprParser.ParseExpression` inherit this.
- IntegerLandscape.ExpandBounds: a bound given as a float or a string (`[int(lbd)] * size.max`) has no case; bounds are integers, lists of integers or missing.
- AstLexer.TokenReader.PopLocation: requires a saved location where the source's `pop()` on an empty stack raises IndexError; within the reader the only pop (in `peek`) follows its own push.
- AstLexer.TokenReader.DropLocation: requires a saved location, for the same reason as `PopLocation`.
- Fitnesses.Zeros, Fitnesses.EmptyIsZero: only the built-in classes (`Fitness`, `FitnessMinimise` and the `SimpleDominatingFitness` classes) are modelled, and their `defaults` are all zero. A user subclass with other `defaults` makes `EmptyFitness() + f` add those defaults to `f`, which `Kind` cannot express.
- Fitnesses.Neg: requires a real fitness; EmptyFitness has no `__neg__`, so `-EmptyFitness` raises TypeError in the source.
- Verifier: the dictionaries of variable references are kept as sets of names. The source locations carried only for error messages are dropped.
- ConsoleMonitor: statistics gathering in `on_pre_reset` and `on_notify` counters is left out. The model takes the statistics as given and models their reset, the per-generation local reset and the termination tests.
- Real-valued species and landscapes, the code emitters, the system and experiment drivers, threading context and network monitors are not part of this model.

## Findings

| source | as written | input that shows it | evidently intended | confidence | as-written member | corrected member |
|---|---|---|---|---|---|---|
| esec/esec/landscape/binary.py:1097-1099 | each task's group offset is `24 * (j // 5)`, where `j` counts from 1 | n = 2: the fifth task gets deadline 25 + 24 = 49, and the sixth task, first of the second group, gets 5 + 24 = 29 | each block of five tasks shares one offset, `24 * ((j - 1) // 5)`, so deadlines rise along the table | not executed | BinaryLandscape.Mttp5iAsWrittenCounterexample | BinaryLandscape.Mttp5iDeadlinesIncrease |
| esec/esec/utils/__init__.py:200-206 | for a non-list iterable, the generator yields only consecutive pairs and never the closing pair | for [1, 2, 3] the list branch gives (1,2), (2,3), (3,1); the generator branch omits (3,1) | both branches yield the same cyclic pairs, as the docstring says | not executed | Utils.OverlappedPairsIterCounterexample | Utils.OverlappedPairsIter |
| esec/esdlc/lexer.py:112-118 | at end of input the current character is `''`, and Python's `'' in '.eE'` is true, so the number being read continues and is never emitted | source "1": no number token is produced | a number or name that ends the source is emitted as a token | not executed | CharLexer.TrailingNumberLostAsWritten | CharLexer.TrailingNumberKept |
