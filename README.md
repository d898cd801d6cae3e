# tm2x0 placement files, modelled in Dafny

tm2x0 reads, writes and rebuilds the CSV placement files of the Neoden TM-220A and TM-240A
pick-and-place machines. This project models its core:

- the record kinds of a placement file: blank line, comment, speed, origin offset, stack offset,
  feed spacing, panelized board and part placement. For each kind the model covers how a line
  of comma-separated fields is recognised, the line `to_csv` writes and the sentence `describe`
  gives.
- `represent_decimal`, which rounds to 0.01 and normalizes, and `describe_stack`.
- the `PlacementInstructions` document: `add_from_line`, `from_string`, `from_file`, `to_csv`,
  `get_copies`, `global_offset` and `describe`.
- the `Placement` object: the reels by slot, the parts by slot, the panel copies and the
  global offset. This covers `assign_part_to_reel`, `unassign_part_from_reel`, `clear_parts`,
  the lookups, `get_parts_sorted_by_reference`, `generate_instructions` and
  `from_instructions`, including its height check.
- the `Reel` and `PartPlacement` objects.
- the KiCad footprint-position reader: `detect_units` and `KicadPartPositions` (`add`,
  `add_from_line`, `from_string`, `from_file`).

## How the model is built

Python's `Decimal` is a sign, a coefficient and an exponent (`Decimals.Dec`), so a negative
zero is a value of its own, as in Python: `represent_decimal` of -0.001 is -0 and is written
"-0". Equality of decimals, as the height check's set uses it, compares values (`-0 == 0`,
`1.0 == 1`). The model writes out `quantize(Decimal('0.01'))` (ROUND_HALF_EVEN), `normalize()`,
`str()`, `Decimal(str)`, `int()` (truncating toward zero), negation and subtraction. Python's `int()` and `str()` on integers are in
`Numerals`; as in Python 2, `int()` accepts whitespace around the number and between its sign
and its digits, which `Decimal()` does not. `str.split`, `str.strip`, `str.split()` without arguments and `str.join` are in `Text`.

A placement record is a value (`Records.Instruction`). Reading a line is a function
(`Records.DecodeLine`) that tries the recognisers in the order `add_from_line` lists them. An
exception a recogniser raises ends the search and becomes the line's `Failure`.

The mutable objects are classes:

- `PlacementInstructions` holds a `seq` of records.
- `Placement` holds maps from slots to `Reel` objects and to lists of `PartPlacement` objects.
- `KicadPartPositions` holds a map from side to a list of parts, plus the kept lines.

Each method is proved against a specification function over values. The specification
functions are:

- `PlacementSpec.Generate` for `generate_instructions`;
- `Rebuild.BuildAll` and `Rebuild.Reconcile` for `from_instructions`;
- `Kicad.ReadPositions` for `from_string`.

Exceptions are `Result` failures that carry the exception's kind and the text it names.
Warnings that the source logs are returned to the caller instead.

## Model

| member | source | states |
|---|---|---|
| `Numerals.NatToString` | tm2x0/instructions.py:106-113 | str(n) of a natural number is a digit string without leading zeros whose value is n |
| `Numerals.IntToString` | tm2x0/instructions.py:106-113 | str(i) is a sign or digit followed by digits, ending in a digit |
| `Numerals.ParseIntToString` | tm2x0/instructions.py:92 | int(str(i)) == i for every integer |
| `Numerals.IntToStringShape` | tm2x0/instructions.py:39-42 | str(i) has no comma, line break, surrounding space or leading '%', so it stays one CSV field |
| `Numerals.ParseIntSpacedSign` | tm2x0/instructions.py:92 | int() reads a sign, then any whitespace, then digits, as the signed number the digits spell, as Python 2's int() skips whitespace after the sign |
| `Numerals.SpacedSignExample` | tm2x0/instructions.py:92 | int("- 5") == -5 |
| `Numerals.ParseDigits` | tm2x0/instructions.py:92 | int() of a digit string is the number it spells |
| `Decimals.RoundHalfEven` | tm2x0/instructions.py:12-16 | the quotient is the nearest integer to c/u, and on a tie it is even |
| `Decimals.Quantize` | tm2x0/instructions.py:12-16 | quantize(0.01) keeps the sign and has exponent -2; its coefficient is the magnitude rounded to the nearest hundredth, ties to even |
| `Decimals.Normalize` | tm2x0/instructions.py:15-16 | normalize() keeps the sign and the value and strips the trailing zeros of the coefficient; a zero becomes 0 or -0 by its sign |
| `Decimals.RepresentDecimal` | tm2x0/instructions.py:15-16 | represent_decimal gives a canonical decimal with the same sign, whose magnitude is the quantized hundredths |
| `Decimals.RepresentNegativeZero` | tm2x0/instructions.py:15-16 | represent_decimal(-0.001) is -0, and str() writes it "-0" |
| `Decimals.RepresentCanonical` | tm2x0/instructions.py:15-16 | canonical decimals are fixed points of represent_decimal |
| `Decimals.RepresentIdempotent` | tm2x0/instructions.py:15-16 | represent_decimal applied twice is applied once |
| `Decimals.RepresentRoundsUp` | tm2x0/test/test_placementInstructions.py:13-15 | 1.3399999 is represented as 1.34 |
| `Decimals.RepresentRoundsDown` | tm2x0/test/test_placementInstructions.py:24-25 | 100000.334234 is represented as 100000.33 |
| `Decimals.RepresentStripsZeros` | tm2x0/test/test_placementInstructions.py:17-20 | 1.30000 is represented as 1.3 and 1.00000 as 1 |
| `Decimals.RepresentInteger` | tm2x0/test/test_placementInstructions.py:22-23 | 34 is represented as 34 |
| `Decimals.PlainExample` | tm2x0/test/test_placementInstructions.py:13-15 | str(Decimal 1.34) is "1.34" |
| `Decimals.NormalizeMultipleOfTen` | tm2x0/instructions.py:15-16 | represent_decimal(20) is the normalized 2E+1 |
| `Decimals.ExponentExample` | tm2x0/instructions.py:106-113 | str() writes 2E+1 in scientific notation, so the CSV field reads "2E+1" |
| `Decimals.DecToString` | tm2x0/instructions.py:106-113 | str(d) of a Decimal; the function carries no contract, and Decimals.DecToStringShape and ParseDecToString state it |
| `Decimals.DecToStringShape` | tm2x0/instructions.py:106-113 | str(d) is a single CSV field of numeral characters, opening with '-' exactly when the sign is set |
| `Decimals.ParseDecToString` | tm2x0/instructions.py:85-86 | Decimal(str(d)) gives d back, sign and exponent included |
| `Decimals.ParseDec` | tm2x0/instructions.py:85-86 | Decimal() of the stripped text: blank text is refused, a refusal is the ValueError naming the text as given, and a leading minus gives a negative value |
| `Decimals.Subtract` | tm2x0/kicad.py:70 | a - b is exact: it carries the smaller exponent, its value is a's minus b's at every finer exponent, and a zero difference is -0 only for -0 minus 0 |
| `Decimals.TruncToInt` | tm2x0/kicad.py:70 | int(d) is the exact value for a whole decimal, and otherwise the whole units of the magnitude with d's sign, so it truncates toward zero |
| `Decimals.Negate` | tm2x0/kicad.py:70 | -1 * d flips the sign and keeps the coefficient and exponent, so its value is the negation of d's at every exponent |
| `Decimals.SameValueTransitive` | tm2x0/placement.py:87-90 | equality of decimal values is transitive, so the set of heights is well defined |
| `Text.Split` | tm2x0/instructions.py:395 | s.split(sep) gives at least one piece, and no piece holds the separator |
| `Text.Strip` | tm2x0/instructions.py:416 | s.strip() has no whitespace at either end, is no longer than s, and leaves text without surrounding whitespace unchanged; StripSlice and StripSurrounded give its value |
| `Text.StripSlice` | tm2x0/instructions.py:416 | s.strip() is one slice of s, and everything before and after that slice is whitespace |
| `Text.StripSurrounded` | tm2x0/instructions.py:416 | text with no whitespace at either end, between two runs of whitespace, strips to that text |
| `Text.StripLineEnd` | tm2x0/instructions.py:413-416 | a line as a file gives it, ending in "\n" or "\r\n", strips to the line without its ending |
| `Text.StripAll` | tm2x0/instructions.py:416 | every line is stripped and none is dropped; a line that is stripped already is kept as it is |
| `Text.SplitWhitespace` | tm2x0/kicad.py:49 | s.split() gives non-empty tokens without whitespace; SplitWhitespaceSkips and SplitWhitespaceWord determine its value on every text |
| `Text.SplitWhitespaceSkips` | tm2x0/kicad.py:49 | split() ignores leading whitespace |
| `Text.SplitWhitespaceWord` | tm2x0/kicad.py:49 | a word that ends at whitespace or at the end of the text is split()'s next token |
| `Text.SplitWhitespaceSpaced` | tm2x0/kicad.py:49 | split() of words separated by non-empty runs of whitespace of any length gives the words back, in order |
| `Text.SpacedEnds` | tm2x0/kicad.py:29 | words separated by whitespace runs start with the first word and have no whitespace at either end, so strip() leaves them alone |
| `Text.JoinSplit` | tm2x0/instructions.py:424-435 | joining the pieces of a split with the same separator gives the text back |
| `Text.SplitJoin` | tm2x0/instructions.py:39-42 | splitting a join gives the pieces back when none holds the separator |
| `Text.SplitWhitespaceJoin` | tm2x0/kicad.py:49 | split() of words joined by single spaces gives the words back |
| `Orders.StrLessIrreflexive` | tm2x0/placement.py:100-101 | the string order that sorts references is irreflexive |
| `Orders.StrLessTransitive` | tm2x0/placement.py:100-101 | the string order is transitive |
| `Orders.StrLessTotal` | tm2x0/placement.py:100-101 | of two different references, one sorts before the other |
| `Orders.RemoveFirstAt` | tm2x0/placement.py:150-151 | list.remove cuts out the first occurrence and nothing else, so the multiset loses one copy |
| `Orders.RemoveFirstAbsent` | tm2x0/placement.py:150-151 | removing an element that is absent changes nothing |
| `Slots.SortedKeys` | tm2x0/placement.py:115 | sorted(keys) lists every slot exactly once, in ascending order |
| `Slots.SortedKeysStep` | tm2x0/placement.py:128 | the least slot comes first in sorted order, followed by the sorted rest |
| `Records.DescribeStackCases` | tm2x0/instructions.py:19-25 | "The front tray" or "the front tray" exactly for slot 0 with or without capitals; any other slot is "Reel n" whatever the flag, and n reads back |
| `Records.CommentFromTokens` | tm2x0/instructions.py:68-72 | a record it returns is a comment |
| `Records.BlankFromTokens` | tm2x0/instructions.py:48-51 | a record it returns is a blank line |
| `Records.SpeedFromTokens` | tm2x0/instructions.py:252-255 | a record it returns is a speed record |
| `Records.OriginFromTokens` | tm2x0/instructions.py:90-95 | a record it returns is an origin offset |
| `Records.StackFromTokens` | tm2x0/instructions.py:130-139 | a record it returns is a stack offset |
| `Records.FeedFromTokens` | tm2x0/instructions.py:176-181 | a record it returns is a feed spacing |
| `Records.PanelFromTokens` | tm2x0/instructions.py:208-214 | a record it returns is a panelized board |
| `Records.PartFromTokens` | tm2x0/instructions.py:304-317 | a record it returns is a part placement |
| `Records.DispatchStep` | tm2x0/instructions.py:405-409 | a recogniser that passes leaves the line to the next one |
| `Records.DispatchHit` | tm2x0/instructions.py:405-409 | the first recogniser that returns a record ends the search with it |
| `Records.DecodeLine` | tm2x0/instructions.py:394-410 | add_from_line makes a blank record of the empty line and a comment holding the rest of the line, commas included, of a line opening with '%'; other lines go to the recognisers |
| `Records.RecogniserAt` | tm2x0/instructions.py:396-404 | the recognisers are tried in the listed order |
| `Records.PastTextRecords` | tm2x0/instructions.py:48-72 | a line that is not a comment and has at least two fields is neither a comment nor a blank line |
| `Records.DecodeBadFlag` | tm2x0/instructions.py:252-255 | a line whose first field is not an integer fails at the speed recogniser with int()'s ValueError |
| `Records.DecodeSpeed` | tm2x0/instructions.py:252-255 | a first field of 0 makes a speed record holding the second field |
| `Records.PastSpeed` | tm2x0/instructions.py:252-255 | when both flags read and the first is not 0, the configuration and part recognisers decide |
| `Records.ConfigNone` | tm2x0/instructions.py:90-95 | a configuration recogniser whose flags do not match returns nothing |
| `Records.ConfigSkip` | tm2x0/instructions.py:396-409 | a non-matching configuration recogniser passes the line on |
| `Records.OriginRecognised` | tm2x0/instructions.py:90-95 | 65535,0,x,y makes an origin offset at (x, y) |
| `Records.DecodeOrigin` | tm2x0/instructions.py:90-95 | add_from_line reads 65535,0,x,y as an origin offset at (x, y) |
| `Records.StackRecognised` | tm2x0/instructions.py:130-139 | 65535,1,stack,x,y[,comment] makes a stack offset; the comment is empty when missing |
| `Records.DecodeStack` | tm2x0/instructions.py:130-139 | add_from_line reads 65535,1 lines as stack offsets with those fields |
| `Records.FeedRecognised` | tm2x0/instructions.py:176-181 | 65535,2,stack,spacing makes a feed spacing |
| `Records.DecodeFeed` | tm2x0/instructions.py:176-181 | add_from_line reads 65535,2 lines as feed spacings |
| `Records.PanelRecognised` | tm2x0/instructions.py:208-214 | 65535,3,x,y,skip makes a panelized board, skipped for any non-zero flag |
| `Records.DecodePanel` | tm2x0/instructions.py:208-214 | add_from_line reads 65535,3 lines as panelized boards |
| `Records.PastConfig` | tm2x0/instructions.py:396-409 | flags that match no configuration record leave only the part recogniser |
| `Records.DecodePart` | tm2x0/instructions.py:304-317 | a first field strictly between 0 and 65535 makes a part placement with that number and the ten fields |
| `Records.PartRecognised` | tm2x0/instructions.py:304-317 | the part recogniser builds the part from fields 1 to 9 |
| `Records.DecodeUnrecognized` | tm2x0/instructions.py:410 | flags that match no record raise NotImplementedError naming the line |
| `Records.UnrecognizedExample` | tm2x0/test/test_placementInstructions.py:39-41 | "655535,69,69,69,69" is refused as unrecognized |
| `Records.NotANumberExample` | tm2x0/test/test_placementInstructions.py:118-134 | "PARSE ERROR NOT IN YOUR FAVOR" fails with int()'s ValueError |
| `Records.RotationSuffixCases` | tm2x0/instructions.py:345-367 | a positive angle is counter-clockwise, a negative one clockwise, and 0 has no sense |
| `Records.PartDescribeSkippedPrefix` | tm2x0/instructions.py:345-367 | a skipped part's sentence is "SKIPPED: " followed by the unskipped sentence |
| `Records.PartDescribeOpening` | tm2x0/instructions.py:345-367 | an unskipped part's sentence opens with "Part #" and its number |
| `Records.PartDescribeSkipped` | tm2x0/instructions.py:345-367 | the sentence opens with "SKIPPED:" exactly when the part is skipped |
| `Records.PartDescribeReference` | tm2x0/instructions.py:345-367 | the word "(reference)" appears exactly when the reference is non-empty, right after the number |
| `Records.PartDescribeComment` | tm2x0/instructions.py:345-367 | "with comment: c" ends the sentence exactly when the comment is non-empty; otherwise the rotation word ends it |
| `Records.RotationWordOpening` | tm2x0/instructions.py:345-367 | the rotation word is never a comment word |
| `Records.Describe` | tm2x0/instructions.py:237-367 | the sentence of a part or a panel copy opens with "SKIPPED:" exactly when the record is skipped |
| `Records.DescribeAsWritten` | tm2x0/instructions.py:237-244 | describe() as written fails exactly for a panelized board, with TypeError; every other record gets the intended sentence |
| `Records.PanelDescribeSkipped` | tm2x0/instructions.py:237-244 | the intended panel sentence opens with "SKIPPED: " exactly for a skipped copy |
| `Records.PanelDescribeEnds` | tm2x0/instructions.py:237-244 | the intended panel sentence ends with the copy's y offset in mm |
| `Records.IntText` | tm2x0/instructions.py:106-113 | str(n) is a field that reads back as n |
| `Records.DecText` | tm2x0/instructions.py:99-113 | str(represent_decimal(d)) reads back as represent_decimal(d) |
| `Records.SkipToken` | tm2x0/instructions.py:224-235 | a skip flag is written as 1 or 0 and reads back |
| `Records.FieldsSplit` | tm2x0/instructions.py:39-42 | splitting the joined fields of a record on commas gives them back when none holds a comma |
| `Records.CsvLine` | tm2x0/instructions.py:39-75 | only a blank record writes the empty line, and only a comment writes a line opening with '%' |
| `Records.FlagsRead` | tm2x0/instructions.py:92 | two leading integer fields, the first not 0, are read as the flags |
| `Records.SpeedRoundTrip` | tm2x0/instructions.py:257-268 | the line of a speed record reads back as that record |
| `Records.OriginRoundTrip` | tm2x0/instructions.py:105-113 | the line of an origin offset reads back as it, its decimals rounded |
| `Records.StackRoundTrip` | tm2x0/instructions.py:149-157 | the line of a stack offset without a comma in its comment reads back as it, rounded |
| `Records.FeedRoundTrip` | tm2x0/instructions.py:187-194 | the line of a feed spacing reads back as it, rounded |
| `Records.PanelRoundTrip` | tm2x0/instructions.py:224-235 | the line of a panelized board reads back as it, rounded |
| `Records.PartRoundTrip` | tm2x0/instructions.py:331-343 | the line of a part placement numbered 1 to 65534, without commas in its texts, reads back as it, rounded |
| `Records.DecodeCsvLine` | tm2x0/instructions.py:39-42 | reading back the line of any well-formed record gives its rounded form |
| `Records.CsvLineCanonical` | tm2x0/instructions.py:97-113 | a record and its rounded form write the same line |
| `Records.DecimalTextCanonical` | tm2x0/instructions.py:97-103 | rounding an already rounded decimal does not change its text |
| `Instructions.Collect` | tm2x0/instructions.py:415-421 | a run of results succeeds with one value per result |
| `Instructions.CollectAppend` | tm2x0/instructions.py:415-421 | after lines that all succeed, the lines that follow decide the outcome |
| `Instructions.CollectNext` | tm2x0/instructions.py:415-421 | one more line is appended, or its exception is the outcome of the whole file |
| `Instructions.CollectStop` | tm2x0/instructions.py:419-421 | lines after an exception are never read |
| `Instructions.CollectEach` | tm2x0/instructions.py:415-421 | a file is read exactly when every line is, and otherwise fails with the first failing line's exception |
| `Instructions.CollectAll` | tm2x0/instructions.py:415-421 | lines that all succeed give their records in order |
| `Instructions.FirstFailure` | tm2x0/instructions.py:415-421 | the exception of a file is that of its first line that cannot be read |
| `Instructions.EmptyText` | tm2x0/instructions.py:424-430 | an empty text reads as one blank line |
| `Instructions.RenderRoundTrip` | tm2x0/instructions.py:424-435 | writing a file and reading it back gives its records, rounded, when every line is well formed and stands alone |
| `Instructions.RenderCanonical` | tm2x0/instructions.py:432-435 | writing the rounded records gives the same text |
| `Instructions.RenderStable` | tm2x0/instructions.py:424-435 | reading back a written file and writing it again gives the same text |
| `Instructions.CopiesAppend` | tm2x0/instructions.py:374-380 | the copies of two runs of records are those of the first, then of the second |
| `Instructions.CopiesMembers` | tm2x0/instructions.py:374-380 | (x, y) is a copy exactly when an unskipped panel record's x and y properties, represent_decimal of the stored offsets, are (x, y) |
| `Instructions.CopiesCount` | tm2x0/instructions.py:374-380 | there are as many copies as unskipped panel records |
| `Instructions.OriginsAppend` | tm2x0/instructions.py:385 | the origins of two runs of records are concatenated |
| `Instructions.NoOrigins` | tm2x0/instructions.py:385 | there are no origins exactly when there is no origin record |
| `Instructions.OneOrigin` | tm2x0/instructions.py:385 | a single origin record gives exactly its offset, as its x and y properties report it |
| `Instructions.TwoOrigins` | tm2x0/instructions.py:385-387 | two origin records give more than one origin |
| `Instructions.ManyOrigins` | tm2x0/instructions.py:385-387 | more than one origin means two origin records |
| `Instructions.OriginCounts` | tm2x0/instructions.py:385-387 | more than one origin exactly when two origin records exist, and none exactly when no origin record does |
| `Instructions.IntendedGlobalOffsetCases` | tm2x0/instructions.py:382-392 | the intended global offset fails exactly when two origin records exist; it is (0, 0) without one and the only one's offset, as its properties report it, otherwise |
| `Instructions.GlobalOffsetAsWritten` | tm2x0/instructions.py:382-392 | as written: MultipleGlobalOffsets exactly with two origin records, IndexError exactly without one, and (0, 0) whatever the only one holds |
| `Instructions.GlobalOffsetExample` | tm2x0/instructions.py:388-390 | with one origin at (1, 2) the code as written answers (0, 0) while the intended answer is (1, 2) |
| `Instructions.DescribeAllAsWrittenCases` | tm2x0/instructions.py:437-441 | describe() fails exactly for a file holding a panel record, and otherwise gives each record's sentence |
| `Instructions.PlacementInstructions.constructor` | tm2x0/instructions.py:371-372 | a new document holds no records |
| `Instructions.PlacementInstructions.AddFromLine` | tm2x0/instructions.py:394-410 | the line's record is appended, or the exception is returned and nothing changes |
| `Instructions.PlacementInstructions.ReadLines` | tm2x0/instructions.py:412-422 | a new document holds the records of the stripped lines, or the first exception |
| `Instructions.PlacementInstructions.FromString` | tm2x0/instructions.py:424-430 | the document of the text's newline-separated lines, or the first exception |
| `Instructions.PlacementInstructions.FromFile` | tm2x0/instructions.py:412-422 | the document of the file's lines, each stripped, or the first exception |
| `Instructions.PlacementInstructions.GetCopies` | tm2x0/instructions.py:374-380 | the loop returns the offsets of the unskipped panel records, as their properties report them, in order |
| `Instructions.PlacementInstructions.GlobalOffset` | tm2x0/instructions.py:382-392 | the document's global offset as written: it raises for two origin records and for none, and answers (0, 0) otherwise |
| `Instructions.PlacementInstructions.ToCsv` | tm2x0/instructions.py:432-435 | the lines of the records, rounded as writing rounds them; with the default line ending, from_string reads back the rounded records when each is well formed and stands on one line |
| `Instructions.PlacementInstructions.Describe` | tm2x0/instructions.py:437-441 | the loop gives the as-written describe() of every record, in order |
| `Reels.Reel.constructor` | tm2x0/reel.py:2-16 | every argument is stored in its field; the defaults are no offsets, no spacing, height 0, no comment, rotation 0 |
| `Reels.ReelReprReadsBack` | tm2x0/reel.py:18-19 | the repr is "<Reel n>" and n reads back from it |
| `PartPlacements.PartPlacement.constructor` | tm2x0/partplacement.py:5-26 | every argument is stored; a new part is on no reel unless one is given |
| `PartPlacements.PartReprCases` | tm2x0/partplacement.py:29-35 | the repr is "<footprint>" and adds " @ value" exactly when the value is non-empty |
| `PartPlacements.Values` | tm2x0/partplacement.py:5-26 | one value per part object, in order |
| `PlacementSpec.PartResults` | tm2x0/placement.py:134-143 | one result per part |
| `PlacementSpec.PanelSection` | tm2x0/placement.py:110-113 | one unskipped panel record per copy, at the copy's offsets, in order |
| `PlacementSpec.PartRecordCases` | tm2x0/placement.py:134-143 | a part's record adds its reel's rotation and takes its reel's height; KeyError for a part without a known reel |
| `PlacementSpec.AllPartsConcat` | tm2x0/placement.py:126-132 | all_parts over two runs of slots is the concatenation |
| `PlacementSpec.AllPartsIndex` | tm2x0/placement.py:126-132 | all_parts lists each slot's parts in stored order, right after the earlier slots' |
| `PlacementSpec.AllPartsMembers` | tm2x0/placement.py:126-132 | a part is in all_parts exactly when it is listed under a visited slot |
| `PlacementSpec.AllPartsCount` | tm2x0/placement.py:126-132 | all_parts holds as many parts as the slots have between them |
| `PlacementSpec.MisfiledInMembers` | tm2x0/placement.py:129-131 | a slot is warned about exactly when one of its parts names another reel |
| `PlacementSpec.MisfiledMembers` | tm2x0/placement.py:126-132 | the warnings name exactly the slots holding a part assigned elsewhere |
| `PlacementSpec.FlattenPairs` | tm2x0/placement.py:115-124 | a run of record pairs flattens to twice its length, each pair in place |
| `PlacementSpec.ReelSectionSucceeds` | tm2x0/placement.py:115-124 | the reel section succeeds exactly when every reel has its offsets and spacing |
| `PlacementSpec.ReelSectionLayout` | tm2x0/placement.py:115-124 | the reel section holds two records per reel, in slot order |
| `PlacementSpec.ReelSectionLength` | tm2x0/placement.py:115-124 | the reel section holds two records per slot |
| `PlacementSpec.ReelSectionStep` | tm2x0/placement.py:115-124 | the next reel adds its two records, or its exception is the outcome |
| `PlacementSpec.PartSectionSucceeds` | tm2x0/placement.py:134-143 | the part section succeeds exactly when every part is ready |
| `PlacementSpec.PartSectionLayout` | tm2x0/placement.py:134-143 | the i-th part gets record number i+1 |
| `PlacementSpec.PartResultsAt` | tm2x0/placement.py:134-137 | the i-th part's result is its record numbered i+1 |
| `PlacementSpec.PartSectionStep` | tm2x0/placement.py:134-143 | the next part adds its record, or its exception is the outcome |
| `PlacementSpec.PartResultsPrefix` | tm2x0/placement.py:134-137 | numbering a prefix of the parts numbers it as in the whole list |
| `PlacementSpec.AssembleSucceeds` | tm2x0/placement.py:103-144 | the list is assembled exactly when both sections are |
| `PlacementSpec.AssembleCases` | tm2x0/placement.py:103-144 | the origin and panels come first, then the reel records, then the part records |
| `PlacementSpec.ReelsComplete` | tm2x0/placement.py:115-124 | over the sorted slots, the reel section succeeds exactly when every reel is complete |
| `PlacementSpec.PartsReady` | tm2x0/placement.py:126-143 | the part section over all_parts succeeds exactly when every listed part is ready |
| `PlacementSpec.AllPartsCovers` | tm2x0/placement.py:126-132 | all_parts over the sorted slots holds exactly the parts listed under some slot |
| `PlacementSpec.GenerateSplit` | tm2x0/placement.py:103-144 | a generated list is the origin, the panels, the reel section and the part section, in that order |
| `PlacementSpec.GenerateLength` | tm2x0/placement.py:103-144 | a generated list holds one origin, one record per copy, two per reel and one per part |
| `PlacementSpec.GenerateHead` | tm2x0/placement.py:107-113 | a generated list opens with the origin, then one unskipped panel record per copy in order |
| `PlacementSpec.Generate` | tm2x0/placement.py:103-144 | generate_instructions raises exactly when a reel lacks a setting or a part cannot be placed |
| `PlacementSpec.PanelCopies` | tm2x0/placement.py:110-113 | get_copies of the panel records gives back the copies when their offsets are rounded already |
| `PlacementSpec.GenerateReadsBack` | tm2x0/placement.py:103-113 | reading the generated records back, get_copies gives the placement's copies and the intended global offset its offset, when these are rounded already |
| `PlacementSpec.PanelStep` | tm2x0/placement.py:110-113 | each copy adds its panel record at the end |
| `PlacementSpec.AllPartsStep` | tm2x0/placement.py:128-132 | the next slot adds its whole list to all_parts and its warnings |
| `PlacementSpec.MisfiledInStep` | tm2x0/placement.py:129-132 | the next part adds one warning when it is not on its list's slot |
| `Rebuild.AbsorbSlot` | tm2x0/placement.py:56-82 | one record adds slot s to the reels or the part lists only when it names s |
| `Rebuild.BuildReelKeys` | tm2x0/placement.py:56-82 | a slot has a reel exactly when some record names it |
| `Rebuild.BuildParts` | tm2x0/placement.py:66-80 | slot s lists the parts of its unskipped part records in file order; every slot with parts has a reel |
| `Rebuild.AbsorbReel` | tm2x0/placement.py:57-65 | only a stack offset record for s sets its offsets, only a feed spacing record its spacing |
| `Rebuild.BuildReelShape` | tm2x0/placement.py:58-65 | every rebuilt reel carries its slot number and the defaults of a new Reel except what the records set |
| `Rebuild.BuildStackOffset` | tm2x0/placement.py:57-61 | a reel's offsets are those of the last stack offset record for its slot |
| `Rebuild.BuildFeedSpacing` | tm2x0/placement.py:62-65 | a reel's spacing is that of the last feed spacing record for its slot |
| `Rebuild.BuildAll` | tm2x0/placement.py:56-82 | every part the record loop of from_instructions lists names the slot it is listed under |
| `Rebuild.SharedHeight` | tm2x0/placement.py:85-90 | parts whose heights all equal the first part's in value leave a set holding only the first part's height, the element a Python set keeps |
| `Rebuild.MixedHeights` | tm2x0/placement.py:85-90 | two parts whose heights differ in value give more than one height |
| `Rebuild.ReconcileShared` | tm2x0/placement.py:92-96 | a reel whose parts' heights all equal in value takes the first part's height and is not warned about |
| `Rebuild.ReconcileMixed` | tm2x0/placement.py:92-94 | a reel whose parts' heights differ in value keeps its height and is warned about |
| `Rebuild.HeightsStep` | tm2x0/placement.py:87-90 | the next part adds its height to the set, unless an equal value is there already |
| `Rebuild.OneHeight` | tm2x0/placement.py:92-96 | a single-height set holds the first part's height |
| `Rebuild.SameHeightTransitive` | tm2x0/placement.py:87-90 | two heights equal in value to a third are equal in value to each other |
| `Rebuild.HeightsHoldFirst` | tm2x0/placement.py:87-90 | the set holds the first part's height, and each of its elements is some part's height |
| `Rebuild.HeightCovered` | tm2x0/placement.py:87-90 | every part's height equals in value some element of the set |
| `Rebuild.AbsorbOnOwnSlots` | tm2x0/placement.py:56-82 | one record keeps every listed part on the slot it is listed under |
| `Rebuild.AssignedOnOwnSlots` | tm2x0/placement.py:153-161 | assign_part_to_reel keeps every listed part on its own slot, because the part takes the slot it joins |
| `Rebuild.ReconcileStep` | tm2x0/placement.py:92-96 | one more slot settles that slot's reel and warning and nothing else |
| `Rebuild.HeightsOverStep` | tm2x0/placement.py:86-90 | one more slot adds the heights of its parts, when it has any |
| `Rebuild.ReconcileSettle` | tm2x0/placement.py:95-96 | a slot whose parts share a height sets its reel to it without a warning |
| `Rebuild.ReconcileWarn` | tm2x0/placement.py:93-94 | a slot whose parts disagree keeps its reel and is warned about |
| `Rebuild.ReconcileBySlot` | tm2x0/placement.py:84-96 | going over part_heights is going over every slot with a list |
| `Rebuild.Reconcile` | tm2x0/placement.py:84-96 | the height check keeps exactly the slots it is given, and a slot without parts keeps its reel |
| `Rebuild.FromInstructionsAsWritten` | tm2x0/placement.py:50-56 | as written, from_instructions never returns a placement: the global offset's exception without or with two origin records, TypeError with one |
| `Rebuild.SkippedFirst` | tm2x0/placement.py:66-80 | a skipped part record ahead of every unskipped one stops the loop as written |
| `Rebuild.SkippedAgain` | tm2x0/placement.py:66-80 | as written, a skipped part record assigns the previous part once more |
| `Rebuild.SkippedReused` | tm2x0/placement.py:66-80 | after an unskipped part, a skipped record lists that part twice as written, once as intended |
| `Rebuild.AsWrittenNext` | tm2x0/placement.py:56 | both loops read the records in order, one step per record |
| `Rebuild.NoSkipsAgree` | tm2x0/placement.py:66-80 | a file without skipped part records is read alike as written and as intended |
| `Rebuild.ReconcileAsWrittenShared` | tm2x0/placement.py:95-96 | one slot whose parts' heights all equal in value makes heights[0] raise TypeError |
| `Rebuild.ReconcileAgrees` | tm2x0/placement.py:92-96 | when every slot with parts mixes heights, the check as written and as intended agree |
| `Placements.ReelValuesOf` | tm2x0/placement.py:27-30 | one reel value per slot |
| `Placements.PartValuesOf` | tm2x0/placement.py:22-25 | one list of part values per slot |
| `Placements.InsertAt` | tm2x0/placement.py:100-101 | insertion puts the part at one place and moves nothing else |
| `Placements.InsertOrdered` | tm2x0/placement.py:100-101 | insertion into a list ordered by reference keeps it ordered |
| `Placements.SortByReferenceSorts` | tm2x0/placement.py:100-101 | the sorted list holds the same parts, as often each, in reference order |
| `Placements.AssignedValues` | tm2x0/placement.py:153-161 | the values after assign_part_to_reel are those that Assigned gives |
| `Placements.AbsorbStackOffsetIs` | tm2x0/placement.py:57-61 | a stack offset record gives the slot a reel if it had none, then sets its offsets |
| `Placements.AbsorbFeedSpacingIs` | tm2x0/placement.py:62-65 | a feed spacing record gives the slot a reel if it had none, then sets its spacing |
| `Placements.AbsorbPartIs` | tm2x0/placement.py:66-80 | an unskipped part record assigns its part to its slot |
| `Placements.AssignedToEmpty` | tm2x0/placement.py:78-80 | making an empty list first does not change what the assignment gives |
| `Placements.Placement.constructor` | tm2x0/placement.py:14-38 | a missing argument becomes an empty dict or list; the offsets default to 0 |
| `Placements.Placement.ClearParts` | tm2x0/placement.py:147-148 | every slot loses its part list |
| `Placements.Placement.AddDefaultReel` | tm2x0/placement.py:156-157 | a slot without a reel gets a new Reel carrying only its number |
| `Placements.Placement.AssignPartToReel` | tm2x0/placement.py:153-161 | the part names the slot; the slot gets a default reel if it had none; the part joins the end of its list |
| `Placements.Placement.UnassignPartFromReel` | tm2x0/placement.py:150-151 | the first occurrence of the part leaves the list; KeyError without a list and ValueError without the part, changing nothing |
| `Placements.Placement.GetReelForPart` | tm2x0/placement.py:40-41 | the reel of the part's slot, or KeyError when the part has none or an unknown one |
| `Placements.Placement.GetPartsForReel` | tm2x0/placement.py:43-44 | the list of the reel's slot, or KeyError |
| `Placements.Placement.GetPartsSortedByReference` | tm2x0/placement.py:100-101 | a permutation of the slot's list in reference order, or KeyError |
| `Placements.Placement.EmitReels` | tm2x0/placement.py:115-124 | the loop gives the reel section of the given slots |
| `Placements.Placement.PartRecordOf` | tm2x0/placement.py:134-143 | the record of one part, read from its reel |
| `Placements.Placement.CollectParts` | tm2x0/placement.py:126-132 | the loop gives all_parts and one warning per misfiled part |
| `Placements.Placement.AppendList` | tm2x0/placement.py:129-132 | one slot's parts are appended in order, with their warnings |
| `Placements.Placement.EmitParts` | tm2x0/placement.py:134-143 | the loop gives the part section, numbered from 1 |
| `Placements.Placement.GenerateInstructions` | tm2x0/placement.py:103-144 | a new document holding what Generate gives, or its exception, with the misfiled warnings |
| `Placements.Placement.EmitRecords` | tm2x0/placement.py:107-143 | the records appended are those of Generate; warnings come once the reels are done |
| `Placements.Placement.EmitAllParts` | tm2x0/placement.py:126-143 | the part section over all_parts, with its warnings |
| `Placements.Placement.EmitPanels` | tm2x0/placement.py:110-113 | one panel record per copy, in order |
| `Placements.Placement.EnsureReel` | tm2x0/placement.py:58-59 | the slot has a reel afterwards, a new default one when it had none |
| `Placements.Placement.SetStackOffset` | tm2x0/placement.py:60-61 | only the slot's reel takes the offsets |
| `Placements.Placement.SetFeedSpacing` | tm2x0/placement.py:65 | only the slot's reel takes the spacing |
| `Placements.Placement.SetHeight` | tm2x0/placement.py:96 | only the slot's reel takes the height |
| `Placements.Placement.FromInstructions` | tm2x0/placement.py:46-98 | as intended: the offset or its exception, the copies, the records' reels and parts, the height check, and its warnings |
| `Placements.Placement.Absorbed` | tm2x0/placement.py:56-82 | the record loop builds exactly what BuildAll says |
| `Placements.Placement.CheckHeights` | tm2x0/placement.py:84-96 | shared heights go to the reels, and the mixed slots are returned as warnings |
| `Placements.Placement.AbsorbRecord` | tm2x0/placement.py:56-82 | one pass of the record loop does what Absorb says |
| `Placements.Placement.AbsorbStackOffset` | tm2x0/placement.py:57-61 | a stack offset record does what Absorb says |
| `Placements.Placement.AbsorbFeedSpacing` | tm2x0/placement.py:62-65 | a feed spacing record does what Absorb says |
| `Placements.Placement.AbsorbPart` | tm2x0/placement.py:66-80 | an unskipped part record does what Absorb says |
| `Placements.Placement.EnsureList` | tm2x0/placement.py:78-79 | the slot has a list afterwards, a new empty one when it had none |
| `Placements.Placement.PartHeights` | tm2x0/placement.py:85-90 | part_heights maps every slot with parts to the set of their heights |
| `Placements.Placement.AddHeights` | tm2x0/placement.py:87-90 | one slot's parts add their heights to its set |
| `Placements.Placement.ApplyHeights` | tm2x0/placement.py:92-96 | as intended: shared heights go to the reels, mixed slots are warned about |
| `Placements.Placement.SettleSlot` | tm2x0/placement.py:93-96 | one slot of the height loop settles as ReconcileOver says |
| `Kicad.UnitsInFirst` | tm2x0/kicad.py:6-14 | the first units line decides and the lines after it are never read |
| `Kicad.UnitsInNone` | tm2x0/kicad.py:6-14 | without a units line the units are None, and only then |
| `Kicad.UnitsNamedCases` | tm2x0/kicad.py:8-14 | "## Unit = mm" gives mm, "## Unit = inches" gives inches, anything else raises ValueError naming the line |
| `Kicad.DetectUnits` | tm2x0/kicad.py:6-14 | the first units line decides the units, and there are none exactly when no line is a units line |
| `Kicad.ReadLine` | tm2x0/kicad.py:44-80 | what add_from_line reads from one line; the function carries no contract, and Kicad.ReadLineCases states its cases |
| `Kicad.ReadLineCases` | tm2x0/kicad.py:44-80 | a comment or empty line gives nothing; a data line short of seven tokens raises IndexError; otherwise the tokens make the part, with the raw x and y text and the converted rotation, or the first bad decimal among x, y and rotation raises |
| `Kicad.WordsLine` | tm2x0/kicad.py:46-49 | words separated by runs of whitespace, the first not a comment, make a data line that strip() leaves alone and whose tokens are those words |
| `Kicad.ReadWords` | tm2x0/kicad.py:49-77 | seven or more words separated by runs of whitespace read back as the part they describe, on the side the seventh names |
| `Kicad.ReadShortLine` | tm2x0/kicad.py:51 | a data line with fewer than seven whitespace-separated tokens raises IndexError |
| `Kicad.Rotation` | tm2x0/kicad.py:70 | the machine angle is 180 - rot truncated toward zero: whole units of the difference, with its sign |
| `Kicad.RotationWhole` | tm2x0/kicad.py:70 | an integral angle becomes 180 minus that angle |
| `Kicad.RotationRange` | tm2x0/kicad.py:64-70 | an angle from 0 to 360 becomes one from -180 to 180 |
| `Kicad.RotationExamples` | tm2x0/kicad.py:70 | 270 becomes -90, 90 stays 90, 180 becomes 0 |
| `Kicad.GatherBySide` | tm2x0/kicad.py:39-42 | each side lists exactly the parts its data lines describe, in order |
| `Kicad.GatherFails` | tm2x0/kicad.py:28-30 | reading fails exactly when some line raises |
| `Kicad.GatherFirstFailure` | tm2x0/kicad.py:28-30 | the exception is the first raising line's |
| `Kicad.GatherStops` | tm2x0/kicad.py:28-30 | once a line raises, the rest are not read |
| `Kicad.LinesKeepText` | tm2x0/test/test_kicadPartPositions.py:66-69 | when no line has surrounding whitespace, the kept lines joined give the file back |
| `Kicad.SideValuesOf` | tm2x0/kicad.py:20 | one list of part values per side |
| `Kicad.SideValuesPut` | tm2x0/kicad.py:39-42 | adding a part appends its value to its side's list |
| `Kicad.KicadPartPositions.constructor` | tm2x0/kicad.py:18-22 | a new reader has no parts and no lines, and the given units |
| `Kicad.KicadPartPositions.Add` | tm2x0/kicad.py:39-42 | the part goes to the end of its side's list, made first when missing; other sides keep theirs |
| `Kicad.KicadPartPositions.AddFromLine` | tm2x0/kicad.py:44-80 | the line is kept whatever happens; a data line adds its part; a raising line changes no part |
| `Kicad.KicadPartPositions.FromString` | tm2x0/kicad.py:24-31 | the units, the stripped lines and the parts by side that ReadPositions gives, or the first exception |
| `Kicad.KicadPartPositions.FromFile` | tm2x0/kicad.py:33-37 | the reader of the file's whole text, as from_string builds it |
| `Kicad.KicadPartPositions.AddLines` | tm2x0/kicad.py:28-30 | the loop keeps every stripped line and gathers the parts, or stops at the first exception |

## Left out

- Logging: the warnings of `generate_instructions` and of the height check are returned to the caller. The error that `from_file` logs before re-raising is not modelled, and neither is the `print` at tm2x0/kicad.py:79.
- The platform line separator (`os.linesep`) is fixed to "\n".
- The inch conversion of `add_from_line` is not modelled because its products are never stored. Only the exceptions raised by reading the tokens as decimals are kept.
- `Decimal` special values (NaN, infinities) and context precision are not modelled. Arithmetic is exact and rounding is ROUND_HALF_EVEN.
- Python dict order in `from_instructions` is not modelled. The model visits the slots in ascending order, and the outcome does not depend on that order.
- The aliasing of `parts` and `reels` arguments passed to the `Placement` constructor is not modelled: the model takes the maps as given.
- `Placements.Placement.AssignPartToReel`: the values are stated exactly only for a part not yet listed anywhere. A part that is already listed still has its object and lists stated in full.
- `get_reel_for_part` is called twice for each part in `generate_instructions`. The model reads the reel once, because the two calls see the same state.
- The dead check at tm2x0/placement.py:81-82 is not modelled as a step, because `assign_part_to_reel` has just made that reel.
- `Placements.Placement.GetPartsSortedByReference`: it states a permutation in reference order but not that Python's sort is stable, although the insertion it uses does keep equal references in order.
- `Placements.Placement.CheckHeights`: it requires every listed part to name its own slot, which every placement `from_instructions` builds satisfies (`Rebuild.BuildAll`).
- `Placements.Placement.PartHeights`: it has the same requirement, because the source keys its sets by the list's slot but tests membership by the part's own slot.
- File objects are given as their lines (`PlacementInstructions.from_file`) or as their whole text (`KicadPartPositions.from_file`).
- Exceptions are named by kind and the text they carry, not by Python class.
- `Reel.reel_number` is always an integer here, because every caller in the core passes one.
- `Records.CommentFromTokens`: the contract states only the kind of record returned. The fields are stated by `Records.DecodeLine`.
- `Records.BlankFromTokens`: the contract states only the kind. `Records.DecodeLine` states the line.
- `Records.SpeedFromTokens`: the contract states only the kind. The fields are stated by `Records.DecodeSpeed`.
- `Records.OriginFromTokens`: the contract states only the kind. The fields are stated by `Records.OriginRecognised`.
- `Records.StackFromTokens`: the contract states only the kind. The fields are stated by `Records.StackRecognised`.
- `Records.FeedFromTokens`: the contract states only the kind. The fields are stated by `Records.FeedRecognised`.
- `Records.PanelFromTokens`: the contract states only the kind. The fields are stated by `Records.PanelRecognised`.
- `Records.PartFromTokens`: the contract states only the kind. The fields are stated by `Records.PartRecognised`.
- `PlacementSpec.PartResults`: the contract states only the length. `PlacementSpec.PartResultsAt` gives each element.

## Findings

| source | as written | input that shows it | evidently intended | confidence | as-written member | corrected member |
|---|---|---|---|---|---|---|
| tm2x0/instructions.py:388-390 | `global_offset` reads `offsets[0]` when there are no offsets, and returns (0, 0) when there is exactly one | a file whose only record is `65535,0,1,2,,`: the answer is (0, 0) instead of (1, 2), and a file without an origin raises IndexError | the offset of the only origin record, or (0, 0) without one | not executed | `Instructions.GlobalOffsetExample` | `Instructions.IntendedGlobalOffsetCases` |
| tm2x0/instructions.py:243 | the panel description calls `self.x()`, but `x` is a property holding a Decimal, so the call raises TypeError | any panelized board record, e.g. `65535,3,0,0,0,0,0,0,` | a sentence naming the copy's x and y offsets, prefixed "SKIPPED: " for a skipped copy | not executed | `Records.DescribeAsWritten` | `Records.PanelDescribeSkipped` |
| tm2x0/placement.py:50-56 | `from_instructions` iterates over the `PlacementInstructions` object itself, which defines no `__iter__`, so the loop raises TypeError (after the IndexError of `global_offset` for a file without an origin) | any document, e.g. one with the single record `65535,0,0,0,,` | iterate over `instructions.instructions` | not executed | `Rebuild.FromInstructionsAsWritten` | `Placements.Placement.FromInstructions` |
| tm2x0/placement.py:66-80 | a skipped part record still assigns `p`: the part of the last unskipped record, or an unbound local when there is none | an unskipped part record followed by a skipped one: the first part is listed twice | skipped part records add nothing | not executed | `Rebuild.SkippedReused` | `Rebuild.NoSkipsAgree` |
| tm2x0/placement.py:96 | `heights[0]` subscripts a set, which raises TypeError whenever a slot's parts share one height | any placement with a slot whose parts all have height 0 | the reel takes the one height its parts share | not executed | `Rebuild.ReconcileAsWrittenShared` | `Rebuild.ReconcileShared` |
