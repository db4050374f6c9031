# Verified models of the ray tracer, argtable2 and XPA

`dafny verify dfyconfig.toml` checks the whole project.

Each module models one component of the repository in the form the component has: arrays and
objects that are updated in place where the program updates them, functions where it computes. The
theorems are about all inputs, all runs and all reachable states.

| module | component |
|---|---|
| `RealArith`, `Optics`, `CassegrainTelescope` | surfaces, normals, reflection, and the trace through the telescope (`raytrace/ray_funcs.c`, `raytrace/ray_trace.c`) |
| `Grating`, `GratingSurfaces` | the grating bounce, the grating surfaces, the detector map (`raytrace/ray_funcs.c`) |
| `Exchange`, `OptionSyntax`, `OptionLines`, `Getopt`, `LeadingSign` | the permuting option scanner, against a parser that never moves an argument and against command lines as they are written, and what it makes of a leading sign (`libargtable/getopt.c`) |
| `OptionTable`, `Charges`, `Operands`, `ArgParse` | the compilation of an argument table, what reports do to its entries, the distribution of operands, and `arg_parse` as a whole (`libargtable/argtable2.c`) |
| `IntOption`, `IntGrammar` | integer values with radix prefixes and size suffixes, and exactly which texts are accepted (`libargtable/arg_int.c`) |
| `Template`, `TemplateMatch`, `Tokenizer`, `Keyword`, `KeywordValues`, `Parameters` | the glob matcher, the tokenizer and the keyword extractor (`libxpa/word.c`) |
| `BufferState`, `BufferRuns`, `BufferFrees`, `InputBuffers` | one input broadcast to many clients through shared buffers (`libxpa/client.c`) |
| `CommandNames`, `CommandWords`, `CommandList` | the sorted command list and its longest-match lookup (`libxpa/command.c`) |
| `Registry`, `Lookup`, `ProxyInfo` | the name server (`libxpa/xpans.c`) and the proxy information it passes on (`libxpa/client.c`) |
| `ResolvePath` | the path normaliser (`libxpa/find.c`) |
| `Common` | notions that several components share |

## Conventions

- `double` is `real`. The square root is a parameter `sqrt` with `Exact(sqrt)`: it is the
  non-negative root of every non-negative number. Sine and cosine of the grating angle are two
  numbers of the geometry. The root finder is a parameter `free`; the theorems assume that what it
  returned is a root, and `RootsAre` says for which rays there is one, and which.
- A linked list is a field of type `seq`; a buffer that is edited in place is an `array`; a C string
  in a buffer is what precedes the first terminator. Allocation does not fail.
- `read`, `send` and the environment (`getcwd`, `POSIXLY_CORRECT`, the firewall correction of a
  method, scan functions of table entries) are parameters; a theorem holds for all of them.
- `nat` and `int` are unbounded; `IntOption` states the ranges of `int` and `long` explicitly, and
  `strtol` saturates.

## What the proofs found

Each of these is a property that one would expect and that the program does not have: a lemma shows
an input, and another the exact condition.

- `alloc_longoptions` counts commas after the first character but stores a name for an empty first
  piece: for a leading comma that no trailing comma makes up for, no slot is reserved
  (`LeadingComma`; `SlotsExact` and `SlotsSuffice` give the condition).
- A short option whose entry has an optional value but not the flag for a value is read with the
  wrong arity (`OptionalValueRequired`; `CompiledLetters`).
- `getopt` drops a leading `+` or `-` of the option string on the first call only. On later calls that
  character is an option letter, and a `:` after it no longer asks for `:` as the result for a missing
  argument (`PlusIsLetter`, `ColonIsLost`; `ShortAgrees` per letter, `ScanAgrees` per command line).
- `strtol0X` lets `strtol` accept blanks, a sign and a prefix of its own, so that `0x 5`, `0x0x5` and
  `-0x-5` are all 5 (`LooseNumbers`; `StoredExactly` gives the whole language).
- `tmatch` lets a star of the template match a star of the text and forgets that it is one: `*b` does not
  match `*`, and on `xa*x` and `*ab` the loop never ends (`StarMeetsStar`, `NeverEnds`). It decides the
  glob language wherever the text and the template share no star and no bracket (`TMatch`).
- A command name that ends in two blanks is stored with one blank and an empty last token
  (`TwoBlanksAtEnd`; `ParseCounts`).
- `XPAClientSet` returns the number of bytes just sent when an XPA level is set, and its caller takes a
  positive value for completion (`OneByteCounts`; `PositiveIncomplete`). Without a level the clients
  counted are exactly the complete ones (`CountedIsEnded`).
- `DelProxyReq` does not find what `AddProxyReq` stored unless a firewall correction took place
  (`ProxyStays`; `DelProxyMisses`).
- An identical entry is refused even from another connection, and disappears when the first
  connection closes (`LostEntry`; `LostWithOther`).
- A proxy looked up by its address alone is not found unless its type shares a character with the
  port, and never if only its type is added, although that is a well-formed request
  (`AddressNeedsUser`; `AddressAlone`). In the same way class:name without a type and users is looked up
  as a name and a type (`ClassAlone`).
- `raytrace_vecray` depends on the sign of the groove vector exactly if the ray has no component
  along n x g and the order is shifted (`NormalIncidence`, `StraightDown`; `GrooveSign`).
- `ResolvePath` keeps an empty last component after a trailing slash, and resolves `/..` to the
  empty text (`SlashAfterName`, `ParentOfRoot`; `TrailingSlashStays`, `SlashKept`, `NothingLeft`); it is
  idempotent all the same (`ResolveTwice`).

## Model

| member | source | states |
|---|---|---|
| `Optics.ReflectedIsMirror` | raytrace/ray_funcs.c:326-345 | the z-first formulas of raytrace_reflect are the law of reflection for every unit normal that is not horizontal |
| `Optics.MirrorKeepsLength` | raytrace/ray_funcs.c:325-345 | reflection keeps the length of the direction and reverses its component along the normal |
| `Optics.PrimaryNormalised` | raytrace/ray_funcs.c:211-218 | the primary normal is the gradient direction (-x, -y, 2f) divided by its length, and points up |
| `Optics.SecondaryNormalised` | raytrace/ray_funcs.c:221-230 | the secondary normal, computed through xyfact, is the gradient of the hyperboloid divided by its length, and points up |
| `CassegrainTelescope.PrimaryFocuses` | raytrace/ray_funcs.c:15-21 | the primary surface, its normal and the reflection together send every ray parallel to the axis to the point (0, 0, f - v) |
| `CassegrainTelescope.NearFocusDistance` | raytrace/ray_funcs.c:25-34 | the secondary surface is a hyperboloid: a point of the sheet at height w above its centre is at distance e*w - a from the near focus |
| `CassegrainTelescope.SecondaryRefocuses` | raytrace/ray_funcs.c:24-34 | a ray heading for the near focus of the secondary is reflected to its far focus (0, 0, -(v+b)), and the two distances differ by (f+b)/e |
| `CassegrainTelescope.SecondaryMet` | raytrace/ray_funcs.c:142-175 | a ray heading for the primary focus has a root of raytrace_distroot on the secondary before that focus if and only if 1 + e*uz is positive, and then exactly one, at the stated distance |
| `CassegrainTelescope.MeetsSecondary` | raytrace/ray_trace.c:335-356 | from the primary a parallel ray that entered at (x, y) meets the secondary before the focus if and only if (e-1)(x*x+y*y) < 4f*f(e+1), and then at one distance only |
| `CassegrainTelescope.RootsAre` | raytrace/ray_trace.c:281-426 | what the root finder must have returned for a parallel ray, in closed form, and for exactly which entry points there is such a triple |
| `CassegrainTelescope.PlaneHit` | raytrace/ray_funcs.c:38-41 | the root on the focal plane of a ray aimed at a point of it is unique and is that point |
| `CassegrainTelescope.ParallelRaysFocus` | raytrace/ray_trace.c:281-426 | stigmatism and equal optical path: every parallel ray that is not lost ends exactly on the axis at (0, 0, -(v+b)), and the sum of its three advances is its starting height plus v + f + (f+b)/e |
| `CassegrainTelescope.AdvanceToPrimary` | raytrace/ray_trace.c:281-300 | the loop to the primary advances every ray and marks those that miss the mirror as lost |
| `CassegrainTelescope.ReflectOffPrimary` | raytrace/ray_trace.c:308-323 | the loop that reflects every ray that is not lost off the primary |
| `CassegrainTelescope.AdvanceTo` | raytrace/ray_trace.c:335-356 | the loop that advances every ray that is not lost to the next surface |
| `CassegrainTelescope.ReflectOffSecondary` | raytrace/ray_trace.c:364-384 | the loop that reflects every ray that is not lost off the secondary |
| `CassegrainTelescope.LostExactly` | raytrace/ray_trace.c:292-294 | a ray is lost if and only if it was or it meets the plane of the primary outside of its circle, and then stays there; for a parallel ray that is read off its start |
| `CassegrainTelescope.TraceTelescope` | raytrace/ray_trace.c:281-426 | the five loops in place on the array of rays: each ray is what the stages make of it; every parallel ray that is not lost is on the axis; and a parallel ray is lost exactly if it was or if it starts outside of the circle of the primary |
| `Grating.RotationIsFrame` | raytrace/ray_funcs.c:395-414 | the matrix built by raytrace_vecray from two divisions by sqrt(1 - g3*g3) is orthonormal, with rows n x g, n and g |
| `Grating.FrameComplete` | raytrace/ray_funcs.c:426-438 | every direction is the combination of its components along n x g, n and g |
| `Grating.VecRay` | raytrace/ray_funcs.c:350-447 | raytrace_vecray in place on one ray: the goto to line50 happens at most once, exactly when the ray runs against n x g; only the direction changes, and if any direction obeys the law of the grating, it becomes that one; in order 0 a ray that runs against the normal is mirrored |
| `Grating.GratingEquation` | raytrace/ray_funcs.c:426-438 | at most one direction obeys the law: a unit vector on the side of the normal that keeps its component along the grooves and for which d times its gain across them is m*lambda; it is the one computed, and if there is none the root is of a negative number |
| `Grating.OutgoingExists` | raytrace/ray_funcs.c:432-434 | a direction obeys the law if and only if the component across the grooves that it demands and the one along them are not too long for a unit vector |
| `Grating.GrooveSign` | raytrace/ray_funcs.c:388-428 | the result is the same for g and -g if and only if the ray has a component along n x g or the order shifts nothing |
| `Grating.NormalIncidence` | raytrace/ray_funcs.c:388-428 | a ray along the normal is diffracted in every order that shifts it by at most 1, and to different sides for g and -g |
| `Grating.StraightDown` | raytrace/ray_funcs.c:388-428 | straight down with a shift of 0.6 the ray leaves with (-0.6, 0, 0.8) or (0.6, 0, 0.8) |
| `Grating.ZeroOrder` | raytrace/ray_funcs.c:432-438 | in order zero the grating gives the same direction as raytrace_reflect |
| `GratingSurfaces.SphNormalLength` | raytrace/ray_funcs.c:239-252 | on the spherical grating the unnormalised normal has length R, so the normal is a unit vector |
| `GratingSurfaces.TorNormalLength` | raytrace/ray_funcs.c:254-277 | on the toroidal grating the unnormalised normal has length R*cos(alpha)*cos(beta), so the normal is a unit vector |
| `GratingSurfaces.GratingsCoincide` | raytrace/ray_funcs.c:45-80 | on y = 0 the toroidal and the spherical grating have the same height |
| `GratingSurfaces.GrooveIsOrthonormal` | raytrace/ray_funcs.c:286-313 | the groove vector is a unit vector orthogonal to the normal and to the vertex tangent and, if the grating angle is not zero, not along the axis: all that raytrace_vecray requires |
| `GratingSurfaces.SphSupports` | raytrace/ray_funcs.c:239-252 | the normal of the spherical grating is that of its surface: all of the grating lies on its side of the plane through the point, and touches it only there |
| `GratingSurfaces.TorSupports` | raytrace/ray_funcs.c:254-277 | all of the toroidal grating lies on the side of the plane through a point to which the normal there points |
| `GratingSurfaces.RowlandCircle` | raytrace/ray_funcs.c:45-62 | the focus of the telescope, the vertex of the grating, which is on the axis, and its centre of curvature are on the circle of the detector, and the vertex tangent is a unit tangent of the grating there |
| `GratingSurfaces.GratingBounce` | raytrace/ray_trace.c:475-501 | from any point of either grating, with the normal and the groove vector computed there, the direction computed obeys the law of the grating whenever the root exists |
| `GratingSurfaces.DiffractRays` | raytrace/ray_trace.c:475-501 | the loop over the rays: lost ones stay as they are, and every other one keeps all but its direction, which in order -1 obeys the law for the normal and the groove vector at its point, if any does |
| `GratingSurfaces.DetectorHeightZero` | raytrace/ray_funcs.c:452-475 | raytrace_mapdetector maps every point of detector_z to height 0 |
| `Exchange.RotatedParts` | libargtable/getopt.c:280-292 | a rotation is the middle part moved in front of the first, with everything outside in place |
| `Exchange.SwapBottom` | libargtable/getopt.c:315-330 | one round of exchange with the shorter bottom segment: what is left to rotate rotates to the same result |
| `Exchange.SwapTop` | libargtable/getopt.c:331-346 | one round with the shorter top segment: what is left to rotate rotates to the same result |
| `Exchange.ExchangeParts` | libargtable/getopt.c:299-347 | the nested swap loops of exchange are an in-place rotation and terminate |
| `OptionSyntax.FindLong` | libargtable/getopt.c:608-645 | the search for a long option: an exact name wins, else a unique abbreviation, else it is ambiguous or unknown |
| `OptionSyntax.MeansUnique` | libargtable/getopt.c:611-634 | that description of a name determines the result |
| `OptionSyntax.ParseInterleaves` | libargtable/getopt.c:430-472 | the left-to-right parser divides the arguments into options with their arguments and operands, each in original order |
| `OptionSyntax.InterleavesPermutes` | libargtable/getopt.c:430-472 | such a division is a permutation of the arguments |
| `LeadingSign.ShortAgrees` | libargtable/getopt.c:379-388 | the report for a letter is the same with and without the leading sign among the letters if and only if it is another letter that does not lack its argument where a colon follows the sign, or the sign takes an argument in the same way without it, or lacks it where it is unknown otherwise |
| `LeadingSign.ScanAgrees` | libargtable/getopt.c:485-490 | a whole scan is what it would be if every call skipped the sign if and only if no report after the first is one that the sign changes |
| `LeadingSign.SecondLetter` | libargtable/getopt.c:379-388 | for every option string with a sign the command line -:c is misread exactly as the condition for the letter c says |
| `LeadingSign.HarmlessSign` | libargtable/getopt.c:379-388 | a sign not followed by a colon changes nothing on a command line without it in a cluster |
| `LeadingSign.PlusIsLetter` | libargtable/getopt.c:379-388 | with the letters +ab the second call takes + for a letter |
| `LeadingSign.ColonIsLost` | libargtable/getopt.c:379-388 | with the letters +:a: the second call returns ? instead of : for a missing argument |
| `OptionSyntax.OperandsLookLikeOperands` | libargtable/getopt.c:497-502 | in PERMUTE mode the operands are words that do not look like options, followed by everything after the -- that ends the options, if there is one |
| `OptionLines.LineParses` | libargtable/getopt.c:474-927 | the scan of a command line that is written option by option -- clusters of letters, letters with a value in the same or the next word or missing, long options bare, with = or with the next word, operands, -- -- reports exactly the codes, values, indices and flag values that are written there, with the operands in order, in all three orderings |
| `OptionLines.LineOf` | libargtable/getopt.c:474-927 | every command line is written in this way |
| `Getopt.Scanner.ExchangeArgs` | libargtable/getopt.c:349-352 | exchange with its update of first_nonopt and last_nonopt: the indices describe where the operands are now |
| `Getopt.Scanner.Initialize` | libargtable/getopt.c:362-416 | _getopt_initialize: the ordering and the letters that remain |
| `Getopt.Scanner.SkipOperands` | libargtable/getopt.c:515-531 | skipping operands in PERMUTE mode keeps the division of the arguments scanned so far |
| `Getopt.Scanner.EndAtDashes` | libargtable/getopt.c:533-549 | -- ends the scan, is moved with the options, and everything after it is an operand |
| `Getopt.Scanner.Advance` | libargtable/getopt.c:504-579 | the advance to the next argv element ends the scan with every argument in place, reports an operand, or stands at an option |
| `Getopt.Scanner.DecodeLong` | libargtable/getopt.c:596-728 | the long-option branch returns, stores and consumes what the reference parser's report says |
| `Getopt.Scanner.DecodeShort` | libargtable/getopt.c:732-925 | the short-option branch returns, stores and consumes what the reference parser's report says |
| `Getopt.Scanner.Next` | libargtable/getopt.c:474-927 | one resumable call of _getopt_internal reports exactly the first outstanding report of the reference parser, or ends the scan |
| `Getopt.Scanner.ScanAll` | libargtable/getopt.c:474-927 | a whole scan: codes and option arguments are those of the parser that never moves an argument, and for a line that is written option by option those that are written there; argv ends as the options followed by the operands, a permutation with both in original order; optind is the first operand; it terminates |
| `OptionTable.PiecesJoin` | libargtable/argtable2.c:161-180 | the pieces of a text, joined by commas, are the text again, and no piece contains a comma |
| `OptionTable.NamesArePieces` | libargtable/argtable2.c:161-180 | the names that the fill pass stores are the text between the commas, except that a trailing comma starts none |
| `OptionTable.SlotsExact` | libargtable/argtable2.c:131-142 | for one entry the counting pass reserves enough slots if and only if the text does not have a leading comma without a trailing one; the difference is stated exactly |
| `OptionTable.SlotsSuffice` | libargtable/argtable2.c:131-180 | for a whole table the slots counted suffice if and only if no more entries start with a comma than end with one |
| `OptionTable.LeadingComma` | libargtable/argtable2.c:131-180 | the long options ,a of a single entry have two names in one slot |
| `OptionTable.OptionalValueRequired` | libargtable/argtable2.c:202-243 | a letter that may have a value, of an entry without the flag for a value, is read as one that must have a value |
| `OptionTable.BytesSuffice` | libargtable/argtable2.c:131-173 | the bytes counted always suffice |
| `OptionTable.CountPass` | libargtable/argtable2.c:131-142 | the counting pass computes these two numbers |
| `OptionTable.FillPass` | libargtable/argtable2.c:161-189 | the fill pass, in place, stores every name with its terminator and describes it in its slot |
| `OptionTable.AllocLongOptions` | libargtable/argtable2.c:113-199 | the options array holds exactly the long names of the table in order, each with the arity and the index of its entry, then the terminating slot |
| `OptionTable.AllocShortOptions` | libargtable/argtable2.c:202-243 | the array is long enough, and holds the compiled letters with their terminator |
| `OptionTable.CompiledLetters` | libargtable/argtable2.c:202-243 | getopt knows a letter exactly if the table has it, and reads for it the arity of the entry that find_shortoption returns if and only if that entry does not have an optional value without a value |
| `ArgParse.CompileOptions` | libargtable/argtable2.c:268-288 | what getopt reads from the compiled arrays, up to the slot without a name, is the list of long options and letters of the table |
| `ArgParse.FindShortOption` | libargtable/argtable2.c:76-85 | find_shortoption: the first entry with the letter, or -1 |
| `Charges.LettersDeclared` | libargtable/argtable2.c:202-243 | a letter is an option exactly if some entry has it, and takes no value, must have one or may have one as the flags of the first entry that has it say: none, one, both |
| `Charges.LongDeclared` | libargtable/argtable2.c:161-188 | the long options are the names of the entries; each returns the index of its entry through the flag, and takes a value as the flags of that entry say |
| `Charges.ParseRouted` | libargtable/argtable2.c:287-368 | every report of a whole scan finds its entry: the index behind a long option is that of the entry that declares it, a returned letter is always in the table, the argument is as that entry's arity wants it, and a report whose error names an argument consumes one |
| `Charges.ChargesTell` | libargtable/argtable2.c:295-367 | after any reports each entry has counted those that concern it -- by the index behind a long option, or as the first entry with the letter -- and that its scan function accepts, up to its maximum; every other report gives exactly one error, in order, with its code, entry and argument, and an empty value where one is needed gives one more |
| `ArgParse.Dispatch` | libargtable/argtable2.c:295-367 | the switch on getopt_long's result does to counts and errors what the report says; the branch for a letter without an entry is dead |
| `ArgParse.ParseTagged` | libargtable/argtable2.c:258-372 | arg_parse_tagged charges the reports of the left-to-right parser one by one, which ChargesTell reads off the reports, each complaint with the argument that the report consumed last, and leaves argv with the operands last |
| `ArgParse.Check` | libargtable/argtable2.c:460-474 | arg_parse_check registers an error for each entry that occurs too seldom, in table order |
| `ArgParse.TooFewAre` | libargtable/argtable2.c:460-474 | these errors are exactly one for each entry whose count is below its minimum |
| `ArgParse.TooFewInOrder` | libargtable/argtable2.c:460-474 | they come in the order of the table |
| `ArgParse.OutcomeWithinLimits` | libargtable/argtable2.c:491-552 | whatever the command line, no entry counts more than its maximum |
| `ArgParse.Run` | libargtable/argtable2.c:491-552 | arg_parse as a whole, read off the reports of the left-to-right parser: every entry ends with the count of the accepted reports that concern it, up to its maximum, and of the operands that it took by first fit, an entry with options taking none; the errors are those of the reports, then those of the operands, then, if there are none, those of the entries that occur too seldom |
| `Operands.ErrorTable.Register` | libargtable/argtable2.c:52-68 | arg_register_error: the table shows all errors while they fit, and otherwise ARG_ELIMIT in its last slot |
| `Operands.DistributionFits` | libargtable/argtable2.c:382-456 | the distribution is first fit: each operand goes to the first entry, from the one that took the one before, that does not refuse it; the first one that all refuse gives the error of the last entry that tried it, or that there is no match; after it all the rest are unmatched |
| `Operands.DistributionOrder` | libargtable/argtable2.c:382-456 | accepting entries are untagged and do not go back in table order |
| `Operands.DistributionRoom` | libargtable/argtable2.c:382-456 | no entry takes more operands than its maximum allows |
| `Operands.Assign` | libargtable/argtable2.c:382-438 | the first loop of arg_parse_untagged gives out operands as the distribution says and terminates |
| `Operands.ParseUntagged` | libargtable/argtable2.c:376-456 | arg_parse_untagged consumes every operand; each is counted by exactly one entry or registered as exactly one error |
| `IntOption.Strtol0X` | libargtable/arg_int.c:54-109 | strtol0X with its loops: sign, 0, letter, and then whatever strtol makes of the rest |
| `IntOption.DetectSuffix` | libargtable/arg_int.c:114-141 | detectsuffix succeeds exactly if the text is the suffix in any case followed by blanks |
| `IntOption.ArgInt.Multiply` | libargtable/arg_int.c:188-217 | the checks against INT_MAX and INT_MIN divided by the size accept exactly the numbers whose product is an int |
| `IntOption.ArgInt.ScanFn` | libargtable/arg_int.c:144-226 | scanfn appends exactly the scanned value, only counts a missing optional value, or changes nothing and returns the right error |
| `IntOption.NumeralValue` | libargtable/arg_int.c:165-186 | the numeral of a number has that number as its value, in every base |
| `IntOption.ScanReads` | libargtable/arg_int.c:160-221 | blanks, sign, radix prefix, digits, size suffix and blanks are read as the number times the size if that is an int, and are an overflow otherwise, for numbers of any length |
| `IntGrammar.ArgumentReads` | libargtable/arg_int.c:160-221 | an argument of the full grammar, with the blanks, the sign and the prefix that strtol takes of its own, is read as the number times the size |
| `IntGrammar.StoredExactly` | libargtable/arg_int.c:144-226 | a text is stored as v if and only if it is an argument of that grammar whose number times its size is v, an int; it is a bad integer if and only if it is none |
| `IntGrammar.LooseNumbers` | libargtable/arg_int.c:65-108 | the arguments 0x 5, 0x0x5 and -0x-5 are all 5 |
| `IntOption.RoundTrip` | libargtable/arg_int.c:160-221 | every int, written in decimal or with 0x, 0o or 0b, is read back |
| `IntOption.SecondSign` | libargtable/arg_int.c:65-108 | a second sign after the prefix counts as well: -0x-5 is read as 5 |
| `TemplateMatch.SetReads` | libxpa/word.c:63-110 | a set that is written from single characters and pairs lo-hi accepts exactly the characters that some item covers, or if it is negated the others, and ends where its text ends |
| `TemplateMatch.SetIsWritten` | libxpa/word.c:63-110 | every well-formed set that is closed is written so |
| `TemplateMatch.CheckRange` | libxpa/word.c:63-110 | checkrange on a written set: whether some item has lo <= c <= hi, or for a negated set whether none has, and the position just behind the bracket |
| `TemplateMatch.StarSplits` | libxpa/word.c:537-627 | a star matches exactly if the rest matches some suffix |
| `TemplateMatch.LastStarSuffices` | libxpa/word.c:537-627 | once a later star has been reached, going back to it is enough: an earlier star need not absorb more |
| `TemplateMatch.OneTurn` | libxpa/word.c:553-622 | the body of the loop of tmatch, with its inner loop that lets a star absorb, for every text and template, also where they share a star |
| `TemplateMatch.TurnKeeps` | libxpa/word.c:553-622 | a turn decides the match, or it keeps what is known of the match and comes nearer to the end, if the text and the template share no star and no bracket |
| `TemplateMatch.TemplateReads` | libxpa/word.c:537-627 | the glob language of a template that is written from literals, ?, * and sets is what these stand for: a star for any part of the text, every other element for one character |
| `TemplateMatch.TemplateIsWritten` | libxpa/word.c:537-627 | every template of literals, ?, * and closed sets is written so |
| `TemplateMatch.TMatch` | libxpa/word.c:537-627 | tmatch, which backs up only to the last star, terminates and decides whether the elements that the template is written from stand for the text, if the text and the template share no star and no bracket |
| `TemplateMatch.StarMeetsStar` | libxpa/word.c:555-622 | *b does not match the template *, which matches every text |
| `TemplateMatch.NeverEnds` | libxpa/word.c:553-622 | after any number of turns on the text xa*x and the template *ab the loop goes on |
| `Tokenizer.Tokens.Word` | libxpa/word.c:271-352 | word returns the next token, quoted or plain, moves past its separator and records the delimiter |
| `Tokenizer.Tokens.NewDTable` | libxpa/word.c:366-396 | newdtable saves the current table and delimits exactly by the characters given, or fails when the stack is full |
| `Tokenizer.Tokens.FreeDTable` | libxpa/word.c:410-433 | freedtable restores the table saved last |
| `Tokenizer.WordReads` | libxpa/word.c:333-351 | a plain token is read up to the separator that follows it |
| `Tokenizer.QuotedReads` | libxpa/word.c:310-331 | a quoted token is read up to the first quote of its kind that is not behind a backslash, whatever it contains |
| `Keyword.KeywordOf` | libxpa/word.c:644-755 | keyword, in place on its buffer: the value of the first keyword is copied as far as it fits, and removed with its key and one comma |
| `KeywordValues.WrappedReads` | libxpa/word.c:684-722 | a value in parentheses, brackets or quotes is what is between them, with blanks around the equals sign or not |
| `KeywordValues.BracketedReads` | libxpa/word.c:723-740 | a plain value ends at a comma or closing bracket, but may have commas inside of brackets |
| `Parameters.ExtractsItem` | libxpa/word.c:630-755 | from a list key=value,key=(value),... exactly the first item with the key is taken out, with its value as it was written, and the others are left, unless a value in parentheses before it hides the key |
| `Parameters.ExtractsNothing` | libxpa/word.c:630-755 | a key is not found if and only if no item has it and no value in parentheses contains it, with an equals sign, after a comma or a bracket |
| `InputBuffers.Request.ProcessInput` | libxpa/client.c:467-531 | a read takes as many bytes as the read size, the room in the buffer and the supply allow, appends them to the stream in the first buffer with room, and an empty read ends the input |
| `InputBuffers.Request.Release` | libxpa/client.c:1211-1247 | a buffer is freed exactly if every client of the shared buffers is past it and it can no longer grow |
| `InputBuffers.Request.SetFromInput` | libxpa/client.c:1177-1289 | XPAClientSet for a client that copies the input: the new state and the value are those of the specification |
| `InputBuffers.Request.SetFromBuffer` | libxpa/client.c:1131-1176 | the same for a client with a buffer of its own |
| `InputBuffers.Request.Set` | libxpa/client.c:1131-1289 | a call, exactly: the bytes sent are all that the peer takes before it refuses, or those of one send at an XPA level; the value, the status and the buffers are stated as functions of the state before |
| `InputBuffers.Request.Run` | libxpa/client.c:1336-1360 | every interleaving of reads and sends leads to the state, the stream and the clients counted as complete that the specification of runs says |
| `BufferState.TransmitsOffered` | libxpa/client.c:1199-1280 | without an XPA level the loop of sends takes exactly what the peer takes before it refuses, and the kind of the refusal tells how it ends |
| `BufferState.AnswerIs` | libxpa/client.c:1131-1289 | the client and the value after a call in closed form, for every reply list and level |
| `BufferState.PositiveIncomplete` | libxpa/client.c:1160-1161 | a call returns a positive value (or 1) for an incomplete client if and only if the XPA level is positive, its first send is accepted with at least one byte (exactly one) and something remains |
| `BufferState.StopsComplete` | libxpa/client.c:1141-1189 | a client that stops has sent everything if the value is 1 and not if it is -1; without a level, positive values and stopping complete are the same |
| `BufferState.LevelKeepsBuffers` | libxpa/client.c:1261-1262 | at an XPA level no buffer is ever freed |
| `BufferState.WithoutValid` | libxpa/client.c:390-421 | removing a buffer that every client is past keeps the invariant |
| `BufferRuns.StepsKeep` | libxpa/client.c:1336-1360 | over every interleaving of reads, partial sends and refusals each client has sent exactly a prefix of its data, and what it still needs is in some buffer |
| `BufferRuns.CountedIsEnded` | libxpa/client.c:1351-1353 | without an XPA level the clients counted as complete in a run are exactly those that have sent everything and wait; with one these are among them |
| `BufferRuns.Delivers` | libxpa/client.c:1336-1360 | once nothing more is read for it, a client whose peer takes something at each of its turns has sent everything after at most one turn more than there are bytes left, whatever happens in between |
| `BufferRuns.OneByteCounts` | libxpa/client.c:1261-1262 | two bytes arrive, the input ends, one byte is accepted: at level 1 the client is counted as complete with one byte missing |
| `BufferFrees.ReadTakes` | libxpa/client.c:467-531 | a read takes all that there is, or 4096 bytes, or what fills the buffer, and ends the input exactly if there is nothing |
| `BufferFrees.SendSizes` | libxpa/client.c:1205-1262 | a call sends at most 4096 bytes for each send, one send at an XPA level, and all that there is to a peer that takes full sends |
| `BufferFrees.RefusalTells` | libxpa/client.c:1131-1289 | without an XPA level a client sends what is taken before the first refusal; then a failed send returns -1 and ends its processing, and one that would block returns 0 |
| `BufferFrees.OnlyWholeBuffers` | libxpa/client.c:1199-1204 | while more input may come only full buffers are sent from |
| `BufferFrees.StepsNeed` | libxpa/client.c:1211-1247 | without an XPA level, after every interleaving each buffer that is left and is not empty has something that some client still needs: it is freed when the last client is past it |
| `BufferFrees.AllFreed` | libxpa/client.c:1211-1247 | when every client that copies the input has sent all of it, no data is left in the buffers |
| `CommandNames.StopsBeforeIsBefore` | libxpa/command.c:1040-1052 | the four comparisons by which XPACmdAdd finds the place are one total order, in which an extension precedes its prefix |
| `CommandNames.BeforeTransitive` | libxpa/command.c:1040-1052 | that order is transitive |
| `CommandList.FirstIsLongest` | libxpa/command.c:600-630 | of two matching commands the earlier one has more tokens, or has the same name and is newer, whatever the names are |
| `CommandNames.ParseCounts` | libxpa/command.c:34-61 | in a name without quotes and with a word the token count is one more than the blanks that the stored name has |
| `CommandNames.TwoBlanksAtEnd` | libxpa/command.c:34-61 | the name a followed by two blanks is stored with one blank and two tokens |
| `CommandList.ParseName` | libxpa/command.c:34-61 | XPACmdParseNames: the words of the name separated by single blanks, and their number |
| `CommandWords.SpreadBegins` | libxpa/command.c:600-620 | a text that is words behind gaps of separators, whatever follows behind a separator, begins with these words |
| `CommandWords.BuildBegins` | libxpa/command.c:606-620 | as many tokens as a text has first words make their joined name, and end behind the last of them |
| `CommandWords.NameIsWords` | libxpa/command.c:606-626 | a text without quotes makes the name of these words if and only if it begins with them |
| `CommandWords.ParseBegins` | libxpa/command.c:34-61 | a name given as words is stored as the words with single blanks, and their number |
| `CommandList.Xpa.CmdAdd` | libxpa/command.c:965-1071 | XPACmdAdd, for every name, also with quotes or blanks at its end: the command gets the name and the count that XPACmdParseNames makes, for words with blanks between them the joined words and their number; it enters the list, which stays sorted, with newer commands before older ones of the same name |
| `CommandList.Xpa.CmdDel` | libxpa/command.c:1085-1129 | XPACmdDel removes exactly the command given and keeps the list sorted |
| `CommandList.Xpa.CmdLookupReserved` | libxpa/command.c:529-565 | XPACmdLookupReserved finds the newest reserved command named by the first word, or none exactly if there is none |
| `CommandList.Xpa.CmdLookup` | libxpa/command.c:579-630 | XPACmdLookup, in terms of words: a command whose words begin the text is found unless one with more words or a newer one of its name is; else the newest reserved command whose one word begins it; and in a text without quotes the words of what is found begin the text, and exactly they are consumed |
| `Registry.NameServer.NewEntry` | libxpa/xpans.c:546-608 | NewEntry adds an entry to its connection unless some connection has one that agrees in all six fields |
| `Registry.NameServer.DelEntry` | libxpa/xpans.c:674-697 | DelEntry removes exactly the entries its argument names: one method, every proxy, or all |
| `Registry.NameServer.AddReq` | libxpa/xpans.c:829-886 | an added entry carries the firewall-corrected method; the reply tells whether it was there |
| `Registry.NameServer.AddProxyReq` | libxpa/xpans.c:900-976 | a proxy entry carries the method after an @ and the printed proxy information |
| `Registry.NameServer.DelReq` | libxpa/xpans.c:989-1026 | a deletion looks for the method that an addition stores |
| `Registry.NameServer.DelProxyReq` | libxpa/xpans.c:1049-1095 | a proxy deletion looks for the method without the @ if there was no correction |
| `Registry.NameServer.Close` | libxpa/xpans.c:1028-1034 | the end of a connection removes its entries and itself |
| `Registry.NameServer.Serve` | libxpa/xpans.c:1765-1888 | every event takes the registry to the next state of the specification and keeps the invariant |
| `Registry.RunSafe` | libxpa/xpans.c:546-608 | after every sequence of connections, requests and disconnections no two entries agree in all six fields, so that each belongs to one open connection |
| `Registry.CloseRemoves` | libxpa/xpans.c:1028-1034 | a disconnection removes exactly that connection's entries |
| `Registry.AddThenDel` | libxpa/xpans.c:989-1035 | add and then del of a method is the same as del alone, which leaves exactly the entries that have another method, but none for an empty method and no proxy for @, and the other connections as they were |
| `Registry.DelProxyMisses` | libxpa/xpans.c:1071-1081 | delproxy removes the entry that addproxy has just made if and only if a firewall correction put the @ into the method it looks for, or it is asked for every proxy |
| `Registry.ProxyStays` | libxpa/xpans.c:1071-1081 | without a firewall the proxy 7f000001:28571 is still there after addproxy and delproxy |
| `Registry.LostEntry` | libxpa/xpans.c:565-576 | in every run in which two connections open and ask for the same entry it is registered, and when the first one closes the second is left without it |
| `Registry.LostWithOther` | libxpa/xpans.c:565-576 | an entry that one connection has asked for is registered after another one closes if and only if that one did not have it |
| `Lookup.Reply.Append` | libxpa/xpans.c:1246-1253 | the growing arrays keep the strings and the offset of each, and always have room for the final line |
| `Lookup.Reply.Assemble` | libxpa/xpans.c:1264-1270 | copying each string with its terminator to its offset gives their concatenation, within the buffer |
| `Lookup.LookupReq` | libxpa/xpans.c:1119-1283 | the request is split in place and read, and the reply is the concatenation of the lines of exactly the matching entries, in order of connections and entries, and the result is their number |
| `Lookup.ReplyTells` | libxpa/xpans.c:1199-1255 | a line is in the reply if and only if it shows a matching entry of some connection |
| `Lookup.LinesInOrder` | libxpa/xpans.c:1199-1270 | the lines of earlier connections come first, and in a connection those of earlier entries, and the reply is their concatenation |
| `Lookup.SplitArg` | libxpa/xpans.c:502-535 | SplitArg, in place: the first colon of the given word becomes a blank, and nothing else changes |
| `Lookup.SecondSplit` | libxpa/xpans.c:502-535 | for the second word, as in a request to add: class:name becomes two words and the address in front of it keeps its colon |
| `Lookup.ClassFound` | libxpa/xpans.c:1148-1240 | a lookup of class:name with a type and users finds exactly the entries whose class and name match, whose type has one of the characters, and whose user is one of the words between blanks, colons, semicolons and commas, in any case |
| `Lookup.ClassAlone` | libxpa/xpans.c:1148-1190 | without users the class is taken for the name and the name for the type: exactly which entries are found then |
| `Lookup.NameFound` | libxpa/xpans.c:1148-1240 | a lookup of a name, with a type and users or without, is for any class |
| `Lookup.LineReads` | libxpa/xpans.c:1230-1245 | the line of an entry is read back as its class, name, type, method, user and information; the method is the name server's for a proxy and for a lookup by method |
| `Lookup.AddedIsFound` | libxpa/xpans.c:843-886 | what a program registers with add is what a lookup of its class, name, type and user shows: the words of its request, with the corrected method and then the original one if there is a correction |
| `Lookup.AddedProxyIsFound` | libxpa/xpans.c:918-976 | the same for a proxy, with the method of the name server and the printed information |
| `Lookup.ProxyByAddress` | libxpa/xpans.c:957-970 | a proxy added without a correction is found by its address behind an @ |
| `Lookup.AddressSplit` | libxpa/xpans.c:1148-1149 | an address host:port with up to two further words is read as one word more than it has |
| `Lookup.AddressAlone` | libxpa/xpans.c:1148-1190 | a lookup of a proxy by its address finds what is meant if and only if both a type and users follow, or neither does and its type has a character of the port; with a type alone it finds nothing |
| `Lookup.AddressNeedsUser` | libxpa/xpans.c:1148-1190 | the proxy @7f000001:28571 of type gs is not found by its address, nor with its type, but with its type and any user |
| `ProxyInfo.PrintedIsText` | libxpa/xpans.c:945-947 | the printed proxy information is a list of three items |
| `ProxyInfo.SocketReads` | libxpa/client.c:791-793 | the nsproxy parameter of the printed text is the socket number |
| `ProxyInfo.SocketNumber` | libxpa/client.c:793-793 | strtol, choosing the base itself, makes the printed number the socket again |
| `ProxyInfo.FieldsRead` | libxpa/client.c:1663-1663 | the ns parameter of the printed text is the list of fields |
| `ProxyInfo.LastFieldReads` | libxpa/xpans.c:945-947 | the last of these fields is the original method |
| `ProxyInfo.ReadProxy` | libxpa/client.c:1658-1679 | reading the printed text back with keyword and three words gives the same class, name and method, and the delimiter tables are as before |
| `Registry.ReadStored` | libxpa/client.c:1658-1679 | what a client reads from the information of an entry that addproxy stored, if nothing of it was cut off: the class and the name of the entry, and the corrected method without the @ and the original |
| `ResolvePath.ComponentsOfSpread` | libxpa/find.c:211-221 | the components of a text are its names, however many slashes separate them |
| `ResolvePath.Split` | libxpa/find.c:211-221 | the first loop cuts the buffer in place into exactly the components |
| `ResolvePath.Prune` | libxpa/find.c:223-239 | the loops that overwrite parts with null refine the stack machine |
| `ResolvePath.FitIsLongest` | libxpa/find.c:241-255 | what is written is the longest prefix of whole components that fits, and everything if it fits |
| `ResolvePath.ResolvePath` | libxpa/find.c:158-262 | ResolvePath is the stack machine on the components, with its special cases and its truncation |
| `ResolvePath.ResolveIsClean` | libxpa/find.c:223-255 | the result has no . or .. and no empty component but perhaps the last, for every input with a slash |
| `ResolvePath.TrailingSlashStays` | libxpa/find.c:211-239 | an empty component is left if and only if the path ends in a slash |
| `ResolvePath.SlashKept` | libxpa/find.c:158-262 | given room, the result ends in a slash if and only if the path does or is /. |
| `ResolvePath.DepthLeft` | libxpa/find.c:223-239 | the depth left is the greatest excess of names over .. in any part at the end of the path |
| `ResolvePath.NothingLeft` | libxpa/find.c:158-262 | given room, the result for a path with a slash is empty if and only if it is not /. and no part at its end has more names than .. in it |
| `ResolvePath.SlashAfterName` | libxpa/find.c:211-255 | /a/ stays /a/, with an empty last component |
| `ResolvePath.ParentOfRoot` | libxpa/find.c:223-255 | /.. is resolved to the empty text |
| `ResolvePath.ResolveTwice` | libxpa/find.c:158-262 | ResolvePath is idempotent for all inputs, wherever the second call is made |
| `ResolvePath.ResolveSimplified` | libxpa/find.c:223-239 | a path is resolved as it is without a name and the .. behind it, without a ., and without a .. at its start |
| `ResolvePath.ResolveJoin` | libxpa/find.c:223-255 | a path of components without . and .. that fits is resolved to itself, so that with the simplifications the result is determined |
| `ResolvePath.RelativeResolves` | libxpa/find.c:180-205 | a relative path is resolved as the same path behind the current directory and a slash |
| `ResolvePath.OthersCopied` | libxpa/find.c:166-178 | a text without a slash is copied as far as it fits, and / and /. give / |

## Left out

- Floating-point rounding, the iteration of the root finder and the random ray start positions.
- The line-spacing output of `raytrace_get_g`, which is a parameter; the arc length of `raytrace_mapdetector`; and the loops from the focal plane to the grating and from there to the detector: the loop of the bounce, the surfaces and the map are modelled.
- `getopt`'s `W;` extension and `long_only`; a caller that moves `optind` back between calls; a long option without a flag whose value is -1; its error messages.
- ArgParse.Run: tables whose short options include `:`, `;`, `?` or characters from 128 on, whose long options are empty texts or contain more leading than trailing commas, or that have an optional value without the flag for a value.
- Table entries other than through a count and a scan function; `arg_date`, `arg_dbl`, `arg_file`, `arg_rex`, `arg_str`; all printing of syntax and glossaries; failing allocation.
- TemplateMatch.TMatch: negated sets, which accept the terminator and take the scan past the end of the text; ill-formed sets; and a `*` or `[` that is in the text and in the template, where the program departs from the glob language (StarMeetsStar) or does not end (NeverEnds).
- InputBuffers.Request.Set: clients that are not in the processing state; when the results of send run out, the next send would block.
- Sockets, `select`, timeouts, forking and signals; the handshake around `XPAClientSet`; terminal input through `rdl`.
- Characters outside 1..127 in tokens, where the program's table index is negative or too large.
- Registry.NameServer.Serve: the splitting of request lines into words, the commands status, version, help and list, the log, and a proxy connection that closes its proxies without closing itself (no caller does that).
- Lookup.LookupReq: a lookup without a word, for which sscanf returns EOF, which no case of the switch covers; the template matcher is a parameter here and is modelled in TemplateMatch.
- ProxyInfo.ReadProxy: fields with delimiters, blanks or leading quotes, fields that are empty, and texts longer than the line buffer.
- Registry.ReadStored: information that was cut off at the length of a line.
- IntOption.ScanReads: the prefix 0b that newer C libraries accept in base 2 after strtol0X has already consumed one.
- ResolvePath.ResolvePath: texts with more slashes than the fixed arrays hold; the current directory is a parameter.
- Access control and port tables, the clipboard, environment expansion, the Tcl, Gtk and Xt bindings, and the FITS example programs.
