# Verified models for franken-fdk-aac

This project proves properties of the algorithmic parts of the repository: the
two `getopt_long` engines, the streaming SHA-1, the DAB+ dynamic label builder
with its CRC, the Reed-Solomon encoder of the DAB+ superframes, the queue that
compares encoder input with decoder output, and the CAF reader.

Code that changes state is modelled as methods, on classes and arrays with the
fields of the C code, and proved against functions on values. The theorems about
whole runs, round trips and codes are lemmas about those functions.

## What is modelled, and what comes out

**Option scanning.** `OptionScanner.Next` says, without moving anything, what
one call of either engine skips, takes and answers. `OptionRuns` is about whole
scans: they end; what they leave is a stable partition of the vector; and when a
second scan gives the same answers. `ScanView` relates a vector in the middle of
a scan to the three parts it stands for. `GetoptLong` and `MingwGetopt` are the
two programs: the BSD engine, which permutes late with the cycle walk of
`Rotation`, and the MinGW engine, which permutes early by saving, shifting and
restoring. Each call of either one is proved to be the read-only call on the
parts, so the theorems about whole scans hold for both vectors in place.
`OptionWords` adds the round trip: a command line put together from options,
arguments and operands is read back as just those. `LongLookup` and
`MingwLookup` are about the lookup of long names, and `EngineAgreement` shows
that on ordinary arguments the engines scan alike. `OptionMeaning` spells out,
from the characters of the option string and the rows of the table, what every
option comes to in either engine, misused ones included.

**SHA-1.** `Sha1Standard` is FIPS 180-1 for messages of whole bytes; `Sha1` is the
incremental program. Its digest is that of the standard for every way of cutting
the message. `Sha1Values` says bit by bit what the functions of the standard
compute, and derives the published digest of "abc".

**Dynamic label.** `DabLabel` is the layout, `DabReceiver` a receiver that
reads the buffer from the F-PAD backwards and decodes its bits by itself,
`DabPad` the builder. The receiver gets back every label the builder accepts. `Polynomials` and `Crc16` prove that
the CRC register computes a polynomial remainder, and what follows from it.

**Reed-Solomon.** `ByteField` proves that the antilog and log tables are those
of a field with 255 different powers of x. `ReedSolomon` proves the distance of
the code for any number of roots, and `DabRs` that the table-driven encoder
computes the one set of parity bytes that makes a row a codeword.

**Comparison queue.** `CompareQueue` proves that the statistics are those of one
aligned comparison, for every interleaving of appends and compares in which the
output does not run ahead, and exactly then.

**CAF.** `CafInfo` is the string list of an information chunk, `CafStream` and
`CafReader` the frame reader. `CafChunks` writes chunks behind the frames and
proves that just their tags are read back.

## Where the code does less than its description

- A second scan with `optreset` gives other answers if an option lacked its
  argument in the first one and operands were skipped: in the permuted vector the
  option finds one. `OptionRuns.RescanExactly` gives the exact condition,
  `OptionRuns.MissingBreaksRescan` an instance.
- The order of rows in a long-option table shows exactly when two rows carry the
  very name looked up and act differently (`LongLookup.RowOrderExactly`). In the
  MinGW engine, moreover, two abbreviations in front of an exact name make it
  ambiguous (`MingwLookup.EnginesAgreeExactly`).
- With four label segments the builder reserves one byte more than it lays out,
  and its last byte says so (`DabLabel.StreamLength`).
- `caf_info` reads past the chunk unless at least one string follows the count
  and the last byte is NUL; the empty list is such a case
  (`CafInfo.StaysInsideExactly`, `CafInfo.EmptyListReadsOutside`).
- A request for no frames while frames are left makes `caf_read_frames` look for
  chunk headers among them (`CafStream.KeepsTrackExactly`,
  `CafStream.ZeroRequestMatters`).
- Decoder output that comes before the input it belongs to is dropped, and later
  samples are compared with the wrong ones (`CompareQueue.AlignedExactly`,
  `CompareQueue.AheadMisaligns`).
- `dab_rs_encode` treats the logarithm 255 of a generator coefficient 0 like a
  number. That is harmless because no coefficient is 0, which follows from the
  distance of the code (`ReedSolomon.GeneratorIsFull`).

## Assumptions

`nargv[nargc]` is NULL; no row of an option table returns -1; the caller passes
the same option string throughout a scan and does not move `optind` during it;
`unsigned` has 32 bits in `sha1.c`; the sums of sample counts in the comparison
queue fit an `int`; a CAF description is one that `caf_desc` accepts, with frames of
at most 64 bytes and a channel map that names existing channels.

## Model

| member | source | states |
|---|---|---|
| Rotation.Gcd | src-fdkaac/missings/getopt.c:148-161 | the loop computes the greatest common divisor, which is also an integer combination of its arguments |
| Rotation.CycleLength | src-fdkaac/missings/getopt.c:180-181 | the number of cycles and their length: every cycle has (p + q) / gcd positions |
| Rotation.NoEarlyReturn | src-fdkaac/missings/getopt.c:186-196 | no walk is back at its start before cyclelen steps |
| Rotation.Returns | src-fdkaac/missings/getopt.c:186-196 | after cyclelen steps every walk is back at cstart |
| Rotation.Distinct | src-fdkaac/missings/getopt.c:186-196 | the positions of one walk are all different |
| Rotation.InClass | src-fdkaac/missings/getopt.c:183-197 | different walks are disjoint: walk i stays in residue class i modulo the gcd |
| Rotation.Covers | src-fdkaac/missings/getopt.c:183-197 | the walks cover the span: every position of class i is on walk i |
| Rotation.RotateCycle | src-fdkaac/missings/getopt.c:184-196 | one walk puts its residue class in place and touches no other |
| Rotation.PermuteArgs | src-fdkaac/missings/getopt.c:168-198 | the two adjacent blocks change places, in their own order; nothing else moves |
| LongLookup.LookUp | src-fdkaac/missings/getopt.c:246-285 | the loop finds the exact name, else the first abbreviation unless a later one clashes |
| LongLookup.LookupRule | src-fdkaac/missings/getopt.c:246-285 | the result without reference to row order: no match, ambiguous and match each if and only if such rows exist |
| LongLookup.RowOrderIrrelevant | src-fdkaac/missings/getopt.c:246-285 | reordering a table whose exact rows agree changes nothing the caller observes |
| LongLookup.RowOrderExactly | src-fdkaac/missings/getopt.c:246-285 | that condition is exact: row order does not show if and only if the rows with this very name agree |
| LongLookup.OrderMatters | src-fdkaac/missings/getopt.c:252-257 | for rows that disagree, an order that changes the outcome |
| OptionScanner.NextShape | src-fdkaac/missings/getopt.c:370-583 | every call stays in the vector, ends with -1 exactly when the scan stops, moves forward, and lacks an argument only at the end |
| OptionScanner.ReadMingwShape | src-fdk-aac/win32/getopt.h:534-599 | the same for reading one option in the second engine |
| OptionRuns.CallProgress | src-fdkaac/missings/getopt.c:410-582 | each call that goes on lowers (arguments left, characters left) |
| OptionRuns.RunStops | src-fdkaac/missings/getopt.c:410-582 | every scan ends, with -1 and with nothing else |
| OptionRuns.StablePartition | src-fdkaac/missings/getopt.c:410-488 | arguments taken and operands skipped interleave, each in original order, to what was read; the tail is untouched |
| OptionRuns.PermutedIsPermutation | src-fdkaac/missings/getopt.c:410-488 | the vector a scan is to leave is a permutation of the original |
| OptionRuns.SkippedAreOperands | src-fdkaac/missings/getopt.c:431-466 | only operands are skipped, and only with FLAG_PERMUTE |
| OptionRuns.NextIsLocal | src-fdkaac/missings/getopt.c:490-582 | a call depends on no argument beyond those it takes, unless its argument was missing |
| OptionRuns.EndShape | src-fdkaac/missings/getopt.c:413-487 | what a call that ends a scan takes: nothing at the end of the vector, the marker at "--" |
| OptionRuns.Replay | src-fdkaac/missings/getopt.c:404-488 | a scan of the taken arguments followed by the rest gives the same answers, takes the same and skips nothing |
| OptionRuns.Rescan | src-fdkaac/missings/getopt.c:404-488 | after a scan in which no option lacked its argument, scanning the permuted vector gives the same answers and moves nothing |
| OptionRuns.RescanExactly | src-fdkaac/missings/getopt.c:541-580 | the second scan answers as the first if and only if no option lacked its argument or no operand was skipped |
| OptionRuns.MissingCallDiffers | src-fdkaac/missings/getopt.c:568-577 | an option that lacked its argument answers differently where something follows it, as in the permuted vector |
| OptionRuns.MissingBreaksRescan | src-fdkaac/missings/getopt.c:564-580 | an instance: "x -a" with option string "a:" |
| OptionRuns.InterleavesPlaces | src-fdkaac/missings/getopt.c:410-488 | what interleaving means: each part at increasing places of its own, and nothing else |
| OptionWords.LettersRead | src-fdkaac/missings/getopt.c:518-582 | a cluster of letters, the last with an argument in any form, is read letter by letter as written |
| OptionWords.LongRead | src-fdkaac/missings/getopt.c:490-516 | a long option with "=" or a separate argument is read as its row and that argument |
| OptionWords.OperandRead | src-fdkaac/missings/getopt.c:431-466 | an operand only adds to what is skipped |
| OptionWords.LineRead | src-fdkaac/missings/getopt.c:370-583 | any line of options, arguments and operands is read back as exactly these |
| OptionWords.LineWithMarker | src-fdkaac/missings/getopt.c:467-487 | the same up to "--": options, the marker, operands, then anything, in this order |
| OptionWords.LineToEnd | src-fdkaac/missings/getopt.c:411-430 | the same up to the end of the vector |
| ScanView.OneCall | src-fdkaac/missings/getopt.c:370-583 | a whole scan is its first call and the scan of what it leaves |
| ScanView.CleanScan | src-fdkaac/missings/getopt.c:410-488 | after a scan to the end or to "--": the taken arguments, then the skipped operands, then the tail |
| ScanView.SameCallSkip | src-fdkaac/missings/getopt.c:453-465 | stepping over an operand does not change what the call comes to |
| GetoptLong.Getopt.FinishLong | src-fdkaac/missings/getopt.c:286-363 | argument, optopt, index and flag cell of a long option, on every path |
| GetoptLong.Getopt.ParseLongOptions | src-fdkaac/missings/getopt.c:205-364 | the answer of the read-only scanner, or -1 with nothing changed |
| GetoptLong.Getopt.ParseW | src-fdkaac/missings/getopt.c:541-560 | -W followed by a long option, in the same or the next argument |
| GetoptLong.Getopt.ParseLetterArgument | src-fdkaac/missings/getopt.c:565-580 | the argument of a letter: attached, next, optional, or missing |
| GetoptLong.Getopt.ParseLetter | src-fdkaac/missings/getopt.c:518-582 | one letter of a cluster, with the place in it |
| GetoptLong.Getopt.ParseOption | src-fdkaac/missings/getopt.c:490-582 | long or short, what is read is what the scanner says |
| GetoptLong.Getopt.ExchangeBlocks | src-fdkaac/missings/getopt.c:456-458 | skipped operands go behind the options taken since |
| GetoptLong.Getopt.SkipOperand | src-fdkaac/missings/getopt.c:453-463 | one more operand is skipped; the block kept by nonopt_start and nonopt_end stays in order |
| GetoptLong.Getopt.FinishAtEnd | src-fdkaac/missings/getopt.c:413-429 | at the end of the vector the operands stand behind all options and optind is the first |
| GetoptLong.Getopt.FinishAtMarker | src-fdkaac/missings/getopt.c:473-486 | at "--" the same, the marker being the last of the options |
| GetoptLong.Getopt.AtOperand | src-fdkaac/missings/getopt.c:437-465 | return in order, stop, or skip, as the option string says |
| GetoptLong.Getopt.UpdatePlace | src-fdkaac/missings/getopt.c:410-488 | the loop at start ends, and its option is the one the read-only call finds |
| GetoptLong.Getopt.Begin | src-fdkaac/missings/getopt.c:400-409 | a reset or optind 0 starts a new scan, otherwise the old one goes on |
| GetoptLong.Getopt.GetoptInternal | src-fdkaac/missings/getopt.c:370-583 | one call in place: return value, optarg, optopt, index, flag cells and the three parts of the vector are those of the read-only call; the state keeps its shape |
| GetoptLong.Getopt.ScanAll | src-fdkaac/src/main.c:1167-1170 | calling until -1 sees the answers of the whole scan and leaves its vector |
| GetoptLong.Getopt.ScanTwice | src-fdkaac/missings/getopt.c:400-488 | in place: after a clean scan the vector is the permuted one, optind its first operand, and a second scan sees the same |
| GetoptLong.Getopt.AtDash | src-fdkaac/missings/getopt.c:467-487 | at a dash: the marker ends the scan, or place is on the first letter of an option |
| GetoptLong.Getopt.Inspect | src-fdkaac/missings/getopt.c:411-488 | one turn of the loop at start: skip, stop with the answer of the read-only call, or find an option |
| GetoptLong.Getopt.TakeOption | src-fdkaac/missings/getopt.c:490-582 | reading an option moves exactly the arguments it takes to the options taken |
| GetoptLong.Getopt.ShowsAll | src-fdkaac/missings/getopt.c:357-363 | what a call shows: optarg, optopt, the index and the flag cells, changed or kept |
| MingwGetopt.SaveShiftRestore | src-fdk-aac/win32/getopt.h:601-649 | saving, shifting and restoring leave what permute_args(optbase, optmark, argind + 1) would |
| MingwGetopt.RotateMarker | src-fdk-aac/win32/getopt.h:689-705 | the loop puts the marker in front of the operands and moves nothing else |
| MingwGetopt.MatchLong | src-fdk-aac/win32/getopt.h:320-362 | how a text relates to a name: not, as abbreviation, or exactly, with the text behind "=" |
| MingwGetopt.FindLong | src-fdk-aac/win32/getopt.h:744-807 | the search over the table, with optarg as it is left |
| MingwGetopt.GetoptParser.FinishLong | src-fdk-aac/win32/getopt.h:364-420 | getopt_resolved on every path |
| MingwGetopt.GetoptParser.ParseLong | src-fdk-aac/win32/getopt.h:721-828 | a long option, unmatched and ambiguous ones included |
| MingwGetopt.GetoptParser.ParseArgument | src-fdk-aac/win32/getopt.h:543-584 | the argument of a letter: attached, optional, next, or missing |
| MingwGetopt.GetoptParser.ParseShort | src-fdk-aac/win32/getopt.h:534-599 | one letter, and where optind and nextchar point afterwards |
| MingwGetopt.GetoptParser.Relocate | src-fdk-aac/win32/getopt.h:601-655 | the last option joins those before optbase; the parts of the vector stay the same |
| MingwGetopt.GetoptParser.FinishAtMarker | src-fdk-aac/win32/getopt.h:685-711 | at "--" the marker ends the options and optind is the first operand |
| MingwGetopt.GetoptParser.AtOperand | src-fdk-aac/win32/getopt.h:838-861 | return in order, stop, or skip; the first operand fixes the conventions |
| MingwGetopt.GetoptParser.FindOption | src-fdk-aac/win32/getopt.h:659-862 | the main loop ends, and its option is the one the read-only call finds |
| MingwGetopt.GetoptParser.Begin | src-fdk-aac/win32/getopt.h:475-507 | optreset, optind 0, or optind moved back start a new scan |
| MingwGetopt.GetoptParser.GetoptParse | src-fdk-aac/win32/getopt.h:466-867 | one call in place is the read-only call: answer, optarg, optopt, index, flag cells, optind and the parts of the vector |
| MingwGetopt.GetoptParser.ScanAll | src-fdk-aac/aac-enc.c:59-81 | calling until -1 sees the answers of the whole scan and leaves its vector |
| MingwGetopt.GetoptParser.ScanTwice | src-fdk-aac/win32/getopt.h:475-507 | after a clean scan the vector is the permuted one, optind its first operand, and a second scan answers the same |
| MingwGetopt.GetoptParser.MoveMarker | src-fdk-aac/win32/getopt.h:689-705 | the marker before the operands, if there are any |
| MingwGetopt.GetoptParser.PassLetter | src-fdk-aac/win32/getopt.h:581-598 | a letter without an argument clears optarg, an invalid one leaves it |
| MingwGetopt.GetoptParser.Inspect | src-fdk-aac/win32/getopt.h:659-862 | one turn of the main loop: skip, stop with the answer of the read-only call, or find an option |
| MingwGetopt.GetoptParser.TakeOption | src-fdk-aac/win32/getopt.h:721-836 | reading an option moves exactly the arguments it takes to the options taken |
| MingwGetopt.GetoptParser.ScanOne | src-fdk-aac/aac-enc.c:59 | one turn of the loop of a caller: what was seen and what is to come make up the whole scan |
| MingwGetopt.Save | src-fdk-aac/win32/getopt.h:628-629 | copies of the arguments of the current option |
| MingwGetopt.Shift | src-fdk-aac/win32/getopt.h:635-636 | the operands move to the right by optspan, none overwritten before it is copied |
| MingwGetopt.Restore | src-fdk-aac/win32/getopt.h:641-642 | the copies stand at optbase, all else as before |
| MingwGetopt.GetoptParser.ConventionsKept | src-fdk-aac/win32/getopt.h:271-295 | the first "+" decides, and then holds for every option string |
| MingwGetopt.GetoptParser.ShowsAll | src-fdk-aac/win32/getopt.h:371-419 | the same in the second engine |
| MingwLookup.CompareMeans | src-fdk-aac/win32/getopt.h:320-362 | the comparison loop splits at "=" and tests for a prefix |
| MingwLookup.ResolveIsFindFirst | src-fdk-aac/win32/getopt.h:744-827 | the search is: the first exact name, unless two abbreviations stand before it |
| MingwLookup.EnginesAgreeExactly | src-fdk-aac/win32/getopt.h:764-797 | the engines act alike on a name if and only if no two abbreviations precede its exact row and, without one, several abbreviated rows clash |
| MingwLookup.LongReadBack | src-fdk-aac/win32/getopt.h:364-420 | a long option written with its argument, attached, separate or none, is read back as row and argument |
| OptionMeaning.LetterDeclared | src-fdkaac/missings/getopt.c:518-569 | what "c", "c:", "c::" and "W;" in the option string make of a letter |
| OptionMeaning.LetterUndeclared | src-fdkaac/missings/getopt.c:518-540 | a letter the option string does not name, ":" and a dash inside an argument are no options |
| OptionMeaning.MissingValueIs | src-fdkaac/missings/getopt.c:397-398 | the value for a missing argument is ":" exactly when the option string, behind "+" or "-", begins with ":" |
| OptionMeaning.LetterMeans | src-fdkaac/missings/getopt.c:518-582 | every answer to a declared letter, its missing argument included, in literal values |
| OptionMeaning.BadLetterMeans | src-fdkaac/missings/getopt.c:518-540 | an undeclared letter answers "?" with optopt the letter, sets nothing else, and leaves the next letter next |
| OptionMeaning.DashMeans | src-fdkaac/missings/getopt.c:518-529 | a dash in a cluster is invalid, or at its end stops the scan |
| OptionMeaning.ClusterStarts | src-fdkaac/missings/getopt.c:467-488 | an argument that begins with a dash is read from its second character |
| OptionMeaning.EveryName | src-fdkaac/missings/getopt.c:246-285 | every long name is unknown, unclear, or stands for a row |
| OptionMeaning.LongMeans | src-fdkaac/missings/getopt.c:286-363 | every answer to a long option that stands for a row: a refused "=value", a missing argument, flag or val |
| OptionMeaning.BadLongMeans | src-fdkaac/missings/getopt.c:274-285 | an unknown or ambiguous name answers "?" with optopt 0 |
| OptionMeaning.LongOptionMeans | src-fdkaac/missings/getopt.c:490-516 | the same for a call, behind "--" or for getopt_long_only |
| OptionMeaning.LetterOrLong | src-fdkaac/missings/getopt.c:496-516 | getopt_long_only where a letter is declared: the long option, or else the letter |
| OptionMeaning.WMeans | src-fdkaac/missings/getopt.c:541-560 | -W with the long option in the same argument, in the next, or missing |
| OptionMeaning.OperandMeans | src-fdkaac/missings/getopt.c:385-466 | operands are returned, end the scan or are skipped, by the first character of the option string and POSIXLY_CORRECT |
| OptionMeaning.EndMeans | src-fdkaac/missings/getopt.c:413-487 | -1 at the end of the vector and at "--", which is taken |
| OptionMeaning.FlagStored | src-fdkaac/missings/getopt.c:357-363 | the flag cell of an accepted option gets its val, and no other cell changes |
| OptionMeaning.MingwLetterDeclared | src-fdk-aac/win32/getopt.h:306-318 | the same declarations in the second engine |
| OptionMeaning.MingwLetterMeans | src-fdk-aac/win32/getopt.h:534-585 | every answer of the second engine to a declared letter, in literal values |
| OptionMeaning.MingwBadLetterMeans | src-fdk-aac/win32/getopt.h:586-598 | an undeclared letter there: "?", optopt the letter, optarg as it was |
| OptionMeaning.MingwEveryName | src-fdk-aac/win32/getopt.h:744-827 | every long name is unknown, unclear, or stands for a row there |
| OptionMeaning.MingwLongMeans | src-fdk-aac/win32/getopt.h:721-828 | every answer of the second engine to a long option, refused and ambiguous ones included |
| EngineAgreement.LettersAlike | src-fdk-aac/win32/getopt.h:306-318 | both engines find the same letter with the same kind of argument |
| EngineAgreement.NextAlike | src-fdk-aac/win32/getopt.h:466-867 | on arguments without ":" and inner dashes a call of plain getopt skips, takes and returns the same on both engines |
| EngineAgreement.ScansAlike | src-fdk-aac/win32/getopt.h:466-867 | then a whole scan returns the same values and leaves the same vector, although the engines permute at different times |
| Sha1Standard.PadLength | src-fdk-aac/sha1.c:354-399 | the padded message fills whole blocks |
| Sha1Standard.FewestZeros | src-fdk-aac/sha1.c:362-384 | no fewer zero bytes would do |
| Sha1Standard.PadInjective | src-fdk-aac/sha1.c:354-399 | different messages are padded differently |
| Sha1Standard.PadBlocks | src-fdk-aac/sha1.c:362-398 | the one or two last blocks of either branch are the end of the padded message, for every buffer index |
| Sha1Standard.HashAppend | src-fdk-aac/sha1.c:206-209 | hashing goes block by block, wherever the bytes are cut |
| Sha1Standard.HashPad | src-fdk-aac/sha1.c:354-399 | processing those blocks gives the hash of the padded message |
| Sha1.Context.Reset | src-fdk-aac/sha1.c:93-107 | an empty message and the initial digest |
| Sha1.Context.ExpandBlock | src-fdk-aac/sha1.c:252-263 | the 80 words of a block |
| Sha1.Context.ProcessMessageBlock | src-fdk-aac/sha1.c:235-329 | the digest moves on by the compression function of the standard |
| Sha1.FirstStages | src-fdk-aac/sha1.c:271-292 | rounds 0 to 39 of the standard |
| Sha1.LastStages | src-fdk-aac/sha1.c:294-315 | rounds 40 to 79 of the standard |
| Sha1.Context.CountByte | src-fdk-aac/sha1.c:191-204 | Length_High * 2^32 + Length_Low is eight times the bytes accepted; Corrupted exactly at 2^61 bytes |
| Sha1.Context.AcceptByte | src-fdk-aac/sha1.c:186-212 | buffer, index and digest stay those of the bytes accepted |
| Sha1.Context.Input | src-fdk-aac/sha1.c:171-213 | the message grows by the array; Corrupted if and only if it was, or non-empty input follows a result, or the message is too long |
| Sha1.LengthBytes | src-fdk-aac/sha1.c:389-396 | the two halves of the counter are the 64-bit length, byte by byte |
| Sha1.Context.PadMessage | src-fdk-aac/sha1.c:354-399 | the digest becomes that of the padded message |
| Sha1.Context.CopyDigest | src-fdk-aac/sha1.c:143-144 | the digest bytes, most significant first, and no byte beyond |
| Sha1.Context.Result | src-fdk-aac/sha1.c:128-147 | the digest of FIPS 180-1, the same at every repetition; on failure nothing is written |
| Sha1.Context.FillZeros | src-fdk-aac/sha1.c:365-383 | the buffer is filled with zeros up to an index |
| Sha1.Context.StoreLength | src-fdk-aac/sha1.c:389-396 | the last eight bytes are the bit length of the message |
| Sha1.HashChunks | src-fdk-aac/test-encode-decode.c:346-373 | for every cutting of a message into inputs the digest is that of the whole, twice |
| Sha1.OneTurn | src-fdk-aac/sha1.c:273-280 | step (d) of the standard |
| Sha1.FromBytes | src-fdk-aac/sha1.c:254-257 | four bytes as a word, the most significant first |
| Sha1Values.ChooseBit | src-fdk-aac/sha1.c:273-274 | each bit comes from the second or the third word, as the first says |
| Sha1Values.ParityBit | src-fdk-aac/sha1.c:285 | each bit is set if an odd number of the words have it |
| Sha1Values.MajorityBit | src-fdk-aac/sha1.c:296-297 | each bit is set if at least two of the words have it |
| Sha1Values.LengthIs | src-fdk-aac/sha1.c:389-396 | the eight bytes of the length, most significant first |
| Sha1Values.AbcDigest | src-fdk-aac/sha1.c:93-329 | the published digest of "abc", by eighty literal states |
| Polynomials.RemainderUnique | src-fdkaac/src/dab_pad.c:24-35 | a polynomial has one remainder of degree below 16 |
| Polynomials.RegisterIsRemainder | src-fdkaac/src/dab_pad.c:24-35 | the shift register holds the remainder of what was fed |
| Polynomials.BurstDetected | src-fdkaac/src/dab_pad.c:24-35 | inputs that differ within 16 consecutive bits leave different registers |
| Crc16.PadCrc16 | src-fdkaac/src/dab_pad.c:24-35 | the two loops compute the CRC function |
| Crc16.FeedByteBits | src-fdkaac/src/dab_pad.c:29-32 | adding a byte at once is feeding its eight bits |
| Crc16.CrcIsRemainder | src-fdkaac/src/dab_pad.c:24-35 | the complemented CRC is the remainder modulo x^16 + x^12 + x^5 + 1 with all-ones start, for any length |
| Crc16.CrcDetectsBursts | src-fdkaac/src/dab_pad.c:24-35 | data that differ only within 16 consecutive bits have different CRCs |
| Crc16.Residue | src-fdkaac/src/dab_pad.c:51-55 | data followed by their CRC always give 0xE2F0 |
| Crc16.CheckValue | src-fdkaac/src/dab_pad.c:24-35 | the check value 0xD64E of the nine digits |
| DabLabel.StreamLength | src-fdkaac/src/dab_pad.c:104-131 | bytes laid out are bytes reserved, or one fewer with four segments |
| DabPad.DlsSegment | src-fdkaac/src/dab_pad.c:41-57 | prefix, text and CRC of a segment |
| DabPad.SmallestField | src-fdkaac/src/dab_pad.c:99-101 | the smallest sub-field of the grid |
| DabPad.AddSegment | src-fdkaac/src/dab_pad.c:89-119 | one segment is stored with its index, or refused exactly when it does not fit |
| DabPad.BuildSegments | src-fdkaac/src/dab_pad.c:88-119 | all segments fit exactly when the reserved size does |
| DabPad.WriteStream | src-fdkaac/src/dab_pad.c:121-131 | indicators, end marker and sub-fields stand backwards in front of the F-PAD, zeros before them |
| DabPad.LayOut | src-fdkaac/src/dab_pad.c:121-137 | the whole buffer, F-PAD and length byte included |
| DabPad.BuildDls | src-fdkaac/src/dab_pad.c:71-140 | succeeds exactly when the label fits; then the buffer is the layout and no byte behind it changes; otherwise nothing is written |
| DabPad.StoreField | src-fdkaac/src/dab_pad.c:109-113 | a data group with zeros up to the length of its sub-field |
| DabPad.Put | src-fdkaac/src/dab_pad.c:125-131 | one byte more of the stream, backwards |
| DabReceiver.GroupRead | src-fdkaac/src/dab_pad.c:41-57 | a data group with its padding is read back, its CRC checked |
| DabReceiver.StreamRead | src-fdkaac/src/dab_pad.c:124-131 | indicators and sub-fields are read back as label and toggle |
| DabReceiver.LabelReceived | src-fdkaac/src/dab_pad.c:71-140 | the receiver recovers every label that fits, with its toggle and correct first and last flags |
| DabReceiver.LayoutInjective | src-fdkaac/src/dab_pad.c:71-140 | no two labels or toggles give the same buffer |
| DabReceiver.NumberRead | src-fdkaac/src/dab_pad.c:48 | the high half of the second byte is the number of the segment, or charset 0 on the first |
| DabReceiver.IndicatorRead | src-fdkaac/src/dab_pad.c:125-126 | a contents indicator announces its sub-field's length in the grid 4, 6, 8, 12, 16, 24, 32, 48 |
| DabReceiver.FieldIsSmallest | src-fdkaac/src/dab_pad.c:99-102 | the sub-field chosen is the smallest of the grid that holds the data group |
| DabReceiver.SegmentText | src-fdkaac/src/dab_pad.c:91-97 | segment s carries the 16 bytes from 16 s on, or what is left |
| DabReceiver.FitsExactly | src-fdkaac/src/dab_pad.c:76-107 | a label fits if and only if n <= 4 and (n + 1) + 24 (n - 1) + the last sub-field <= pad_size - 2 |
| DabReceiver.UnusedAreZero | src-fdkaac/src/dab_pad.c:111-123 | zeros behind each data group and in front of the X-PAD |
| ByteField.FullCircle | src-fdkaac/src/dab_rs.c:46-52 | x returns to 1 after 255 steps of the table loop and not before |
| ByteField.PowersDiffer | src-fdkaac/src/dab_rs.c:46-52 | the 255 powers are different, so that no index is written twice |
| ByteField.HasLog | src-fdkaac/src/dab_rs.c:46-52 | every byte but 0 is such a power, so that every index is written |
| ByteField.ProductByLogs | src-fdkaac/src/dab_rs.c:81-88 | the antilog of the sum of logarithms modulo 255 is the product |
| ReedSolomon.NotAllZero | src-fdkaac/src/dab_rs.c:54-66 | n terms at different places do not vanish at all of n consecutive powers |
| ReedSolomon.WeightBound | src-fdkaac/src/dab_rs.c:54-66 | a word that vanishes at the first t powers is 0 or has more than t entries |
| ReedSolomon.CodeDistance | src-fdkaac/src/dab_rs.c:5-7 | different codewords differ in more than t places |
| ReedSolomon.GeneratorVanishes | src-fdkaac/src/dab_rs.c:54-66 | the generator polynomial vanishes at its roots and is monic |
| ReedSolomon.GeneratorIsFull | src-fdkaac/src/dab_rs.c:57-68 | none of its coefficients is 0, so that each has a logarithm |
| ReedSolomon.FeedValue | src-fdkaac/src/dab_rs.c:81-90 | one byte through the register, seen at each root |
| ReedSolomon.ParityValue | src-fdkaac/src/dab_rs.c:80-91 | the register agrees with the data times X^10 at each root |
| ReedSolomon.EncodesCodeword | src-fdkaac/src/dab_rs.c:73-92 | data followed by parity vanish at all ten roots |
| ReedSolomon.ParityUnique | src-fdkaac/src/dab_rs.c:73-92 | the parity bytes are the only ten that do that |
| ReedSolomon.FiveErrorsDecodable | src-fdkaac/src/dab_rs.c:4-7 | a row with up to five wrong bytes is near one encoded row only (t = 5) |
| DabRs.Mod255 | src-fdkaac/src/dab_rs.c:31-37 | the folding loop is the remainder modulo 255 |
| DabRs.Encoder.BuildTables | src-fdkaac/src/dab_rs.c:44-52 | alpha_to and index_of are inverse to each other, with the sentinel for 0 |
| DabRs.Encoder.BuildGenerator | src-fdkaac/src/dab_rs.c:55-66 | genpoly is the product of the ten factors |
| DabRs.Encoder.Init | src-fdkaac/src/dab_rs.c:39-71 | genpoly ends as the logarithms of the generator |
| DabRs.Encoder.Shift | src-fdkaac/src/dab_rs.c:81-90 | one data byte through the register, by tables |
| DabRs.Encoder.Encode | src-fdkaac/src/dab_rs.c:73-92 | the parity bytes; data and parity are a codeword |
| DabRs.Encoder.MultiplyBy | src-fdkaac/src/dab_rs.c:57-65 | in place, the product with one more factor |
| DabRs.Encoder.TimesRoot | src-fdkaac/src/dab_rs.c:60-65 | the product with a power of x, by tables |
| DabRs.Encoder.TimesCoefficient | src-fdkaac/src/dab_rs.c:84-88 | the product with a coefficient of the generator, by tables |
| CompareQueue.Comparer.AppendInput | src-fdk-aac/test-encode-decode.c:48-59 | the input joins the queue; growing loses nothing |
| CompareQueue.Comparer.CompareOutput | src-fdk-aac/test-encode-decode.c:61-86 | skip, statistics modulo 2^64 and queue after one output |
| CompareQueue.Comparer.TakeDiffs | src-fdk-aac/test-encode-decode.c:77-83 | sum, maximum and count of the differences |
| CompareQueue.Comparer.Init | src-fdk-aac/test-encode-decode.c:36-40 | an empty queue and no statistics; the skip is kept |
| CompareQueue.Comparer.Grow | src-fdk-aac/test-encode-decode.c:49-56 | a larger buffer that holds what the old one held |
| CompareQueue.Comparer.Discard | src-fdk-aac/test-encode-decode.c:84-85 | the compared samples leave the front of the queue |
| CompareQueue.Comparer.Free | src-fdk-aac/test-encode-decode.c:42-46 | no buffer is left |
| CompareQueue.MaxDiffIsMaximum | src-fdk-aac/test-encode-decode.c:79-80 | the maximum bounds every difference and is one of them |
| CompareQueue.RunAccounts | src-fdk-aac/test-encode-decode.c:48-86 | for every run: samples appended are those compared and those queued, and the statistics are those of the samples compared |
| CompareQueue.AlignedExactly | src-fdk-aac/test-encode-decode.c:61-86 | all output behind the skip is compared if and only if it never ran ahead of the input |
| CompareQueue.AlignedStatistics | src-fdk-aac/test-encode-decode.c:48-86 | then the statistics are sum, maximum and count of input[i] - output[i + skip] |
| CompareQueue.ChunkingIrrelevant | src-fdk-aac/test-encode-decode.c:48-86 | then the cutting into calls does not show at all |
| CompareQueue.AheadMisaligns | src-fdk-aac/test-encode-decode.c:75-76 | a run whose output is early: the same samples, another maximum |
| CompareQueue.SumDiffIsDifference | src-fdk-aac/test-encode-decode.c:78-81 | where one signal is never below the other, the sum of differences is the difference of the sums |
| CompareQueue.Symmetric | src-fdk-aac/test-encode-decode.c:78-81 | sum and maximum do not depend on which signal comes first |
| CompareQueue.ZeroExactly | src-fdk-aac/test-encode-decode.c:78-81 | sum and maximum are 0 if and only if the signals are the same |
| CompareQueue.HeardFrom | src-fdk-aac/test-encode-decode.c:65-74 | what is compared is the output from sample skip on |
| CompareQueue.WrapModulo | src-fdk-aac/test-encode-decode.c:33 | the statistics are kept modulo 2^64 |
| CompareQueue.SumDiffAppend | src-fdk-aac/test-encode-decode.c:77-83 | sum and maximum over two stretches are those of the stretches put together |
| CafInfo.ReadInfo | src-fdkaac/src/caf_reader.c:101-125 | the pointer walk passes the pairs the recursion finds, or leaves the chunk |
| CafInfo.PairsOfStrings | src-fdkaac/src/caf_reader.c:112-119 | the strings of a chunk arrive two by two in order; an odd last one is dropped |
| CafInfo.StaysInsideExactly | src-fdkaac/src/caf_reader.c:107-119 | no byte outside is read if and only if the chunk has five bytes or more and ends with NUL |
| CafInfo.InfoRoundTrip | src-fdkaac/src/caf_reader.c:101-125 | a serialised non-empty list comes back as exactly its pairs, then the last call |
| CafInfo.EmptyListReadsOutside | src-fdkaac/src/caf_reader.c:110-113 | the empty list makes the code read outside |
| CafInfo.MeasureString | src-fdkaac/src/caf_reader.c:113-114 | strlen, or running out of the chunk |
| CafStream.RemappedChannel | src-fdkaac/src/caf_reader.c:147-151 | channel j of a frame is channel chanmap[j] of the source |
| CafStream.RemapAllFrame | src-fdkaac/src/caf_reader.c:147-151 | frame i of what is delivered is frame i of the source, remapped |
| CafStream.StepKeepsTrack | src-fdkaac/src/caf_reader.c:140-153 | a request delivers the next frames there are and position counts them |
| CafStream.ZeroRequestLosesTrack | src-fdkaac/src/caf_reader.c:154-164 | a request for no frames while some are left moves the cursor off the frames |
| CafStream.KeepsTrackExactly | src-fdkaac/src/caf_reader.c:140-164 | a request keeps the reader on the frames if and only if it asks for some or none are left |
| CafStream.RequestsDeliver | src-fdkaac/src/caf_reader.c:127-168 | any requests for some frames deliver the frames in order, as many as asked for or there are; position never passes length |
| CafStream.ChunkingIrrelevant | src-fdkaac/src/caf_reader.c:127-168 | requests of the same total deliver the same bytes |
| CafStream.ZeroRequestMatters | src-fdkaac/src/caf_reader.c:154-164 | a file of one frame that a request for no frames makes unreadable |
| CafReader.RemapFrame | src-fdkaac/src/caf_reader.c:148-150 | one frame is remapped in place through tmp |
| CafReader.RemapFrames | src-fdkaac/src/caf_reader.c:147-151 | all frames read are remapped, and nothing behind them changes |
| CafReader.FrameReader.PcmRead | src-fdkaac/src/pcm_readhelper.c:39-53 | the loop reads what was asked for or is left, in whatever pieces the file gives |
| CafReader.FrameReader.NextChunk | src-fdkaac/src/caf_reader.c:53-60 | a chunk header, or the end of the chunks |
| CafReader.FrameReader.ScanChunks | src-fdkaac/src/caf_reader.c:158-163 | the tags behind the frames, in order |
| CafReader.FrameReader.ReadFrames | src-fdkaac/src/caf_reader.c:127-168 | one request: frames stored, position, cursor and tags |
| CafReader.FrameReader.ReadSome | src-fdkaac/src/caf_reader.c:143-153 | the whole frames read are stored remapped, position counts them |
| CafReader.FrameReader.OneChunk | src-fdkaac/src/caf_reader.c:158-163 | one chunk: its tags, or the place behind it |
| CafChunks.NumberOfEight | src-fdkaac/src/caf_reader.c:53-60 | a chunk size written as eight bytes, most significant first, is read back |
| CafChunks.HeaderReadBack | src-fdkaac/src/caf_reader.c:53-60 | type and size of a written chunk are read back |
| CafChunks.InfoReadBack | src-fdkaac/src/caf_reader.c:101-125 | a written tag chunk gives its pairs and the last call |
| CafChunks.ScanReadsBack | src-fdkaac/src/caf_reader.c:158-163 | scanning any written chunks makes exactly the calls of their tag chunks, in order, and ends at the end |
| CafChunks.ScanEnds | src-fdkaac/src/caf_reader.c:158-163 | four zero bytes for a type, or a tag chunk too short for a count, end the scan |
| CafChunks.TagsReadBack | src-fdkaac/src/caf_reader.c:154-164 | the request after the last frame makes exactly the calls of the chunks behind the frames |
| CafChunks.WholeFileRead | src-fdkaac/src/caf_reader.c:127-168 | a file from first frame to last chunk: all frames, however requested, then all tags |
| CafChunks.DeliveredByte | src-fdkaac/src/caf_reader.c:147-151 | each byte delivered is that byte of channel chanmap[j] in the file |
| CafChunks.SizeIsSigned | src-fdkaac/src/caf_reader.c:53-60 | a chunk size from 2^63 on is negative |

## Left out

- Option lists that are NULL, messages printed on errors, and the name of the dash prefix in them.
- The lookup of POSIXLY_CORRECT in the environment: it is a field of the configuration. It is one value for a scan, although the first engine reads it again at every call.
- Characters above 127, which a signed `char` turns into negative return values.
- Callers that move `optind` forward during a scan; in the MinGW engine also a call after -1 without a reset, which would move the NULL behind the vector.
- `getopt_long_only` in the MinGW engine, and option strings without a letter there, for which the code reads past the string.
- MingwGetopt.GetoptParser.ScanTwice: says that the answers of the second scan are those of the first, where calls that leave optarg alone show whatever it was before.
- OptionRuns.RescanExactly: where a row returns 'W' next to -W as a prefix of long options, or, in the MinGW engine, an empty operand would follow a letter that is the error value itself, only the direction of OptionRuns.Rescan is proved.
- EngineAgreement.ScansAlike: plain getopt; with long options the engines differ in how they look names up (MingwLookup.EnginesAgreeExactly).
- OptionWords.LineRead: round trip for the BSD engine, and without FLAG_LONGONLY.
- The stray `-` that ends a scan inside a cluster (getopt.c, line 527) is in the model, but the theorems on partition and rescanning say nothing of the vector after it beyond what was taken and skipped.
- `SHA1Input` with a length beyond the array it is given, and the `decode_hash` call inside `compare_decoder_output`; the hash itself is in `Sha1`.
- Label texts are byte strings: character sets other than 0, and the conversion of text to EBU Latin.
- DabPad.BuildDls: takes the label without its terminator, and reads the terminator as the one byte of an empty label.
- DabRs.Encoder.Encode: coefficients and their logarithms are kept in two arrays where the code reuses one.
- The interleaving of Reed-Solomon rows into superframes, and decoding.
- CompareQueue.Comparer.AppendInput: memory always suffices, where the code would abort; sizes that overflow an `int` are excluded.
- CafReader.FrameReader.ReadFrames: I/O errors, and chunks behind the frames that point backwards, are cut off, or are tag chunks that make `caf_info` read outside, are excluded; a cursor behind the end of the file counts as the end.
- `caf_parse`, `caf_desc`, `caf_open` and `apple_chan_chunk`: a description and a channel map are given.
- CafInfo.ReadInfo: the chunk is complete; memory that a short read leaves uninitialised is not modelled.
- The FDK encoder and decoder calls, WAV reading, resampling, metadata, and the fuzzers.
