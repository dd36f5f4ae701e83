# Babelfish: proofs about its data types and its control-flow compiler

A Dafny model of the parts of Babelfish, the T-SQL layer for PostgreSQL, that do real work on bytes, digits,
calendars and control flow, with proofs of what they promise.

- **Control flow** (`Control`, `Layout`, `Analyzer`, `Nesting`, `Codegen`, `Executor`, `Simulation`,
  `Interpreter`, `NestedCatch`, `Depth`, `Structured`). T-SQL procedures are checked, turned into linear code
  with jumps and a stack of error contexts, and executed by a loop. `Control` gives programs a meaning of
  their own, by continuations, with data statements decided by an arbitrary function of the whole history, and
  `Structured` says the same of programs without GOTO statement by statement. The main theorems say that
  compiled code and program halt, fail and diverge together with the same history, and that the error stack is
  never misused.
- **Spatial values** (`Bytes`, `Spatial`, `SpatialEncoder`, `SpatialParse`, `SpatialDecoder`,
  `SpatialRoundTrip`, `SpatialLayout`, `EwkbReader`). The columnar CLR form (section 2.1 of [MS-SSCLRT]) and
  the interleaved EWKB of PostGIS. Both converters are imperative and proved against reference readings, and
  the round trip is characterised for every geometry.
- **Numerics** (`Decimal`, `Numeric`, `NumericStore`, `NumericText`, `Texts`, `NumericGrammar`). Base-10000
  digit arrays: text to digits, stripping, rounding in place, and the packed form. The specification is the
  exact rational value.
- **Money** (`Machine`, `BigEndian`, `MoneyPrint`, `MoneyScan`, `MoneyGrammar`, `MoneyAggregate`). Printing,
  permissive scanning and parallel aggregation of 64-bit amounts.
- **Dates** (`Calendar`, `Datetime`, `DatetimeBinary`, `DatetimeRoundTrip`, `DateDiff`, `TimestampRounding`).
  Day numbers, carry, rounding, the binary form and DATEDIFF.
- **Well-known text** (`Wkt`). Points of mixed dimensions made uniform and printed back.

Where the code does not do what its comments or callers suggest, the model follows the code, a lemma shows a
concrete input, and another states exactly when the code is right: nested CATCH arms counted as TRY, money
amounts whose product wraps, datetime bytes whose day wraps, time differences that fit only with their last
part, and a NaN that is not looked at. The check for TRY is commented "at least one try block active", which
two nested CATCH arms refute.

Assumptions of the model: statements are told apart by their identity, as pointers are; the shift that
assembles the day bytes of a datetime is read as the intended signed 32-bit big-endian number; PostgreSQL
splits timestamps from 4713 BC on and puts together those before 294277; the money scanner is the variant
without compiler overflow builtins, which is the one the header selects; strtol's saturation is modelled by
the exact integer, which the following range test cannot tell apart; the limit on the scale of ROUND is
PostgreSQL's 2000. A character in a money text stands for one byte. Bit fields of headers that do not overlap
are added instead of or-ed.

## Model

| member | source | states |
|---|---|---|
| `NestedCatch.CountsAsTryExact` | contrib/babelfishpg_tsql/src/iterative_exec.c:949-972 | The test for being inside TRY agrees with "some TRY arm is around, or a caller is inside TRY" exactly when that is so or fewer than two CATCH arms are around. |
| `NestedCatch.PartOfTryCatch` | contrib/babelfishpg_tsql/src/iterative_exec.c:949-972 | The walk over the call stack finds some procedure that counts as inside TRY. |
| `NestedCatch.StackTestExact` | contrib/babelfishpg_tsql/src/iterative_exec.c:949-972 | Over the whole call stack the test is right exactly when some procedure is in a TRY arm or none is in two CATCH arms. |
| `NestedCatch.NestedCatchAborts` | contrib/babelfishpg_tsql/src/iterative_exec.c:949-972 | A program of three statements that each raise an ignorable error: the one in two CATCH arms ends the run with its error, instead of being passed over. |
| `NestedCatch.NestedIsAccepted` | contrib/babelfishpg_tsql/src/iterative_exec.c:949-972 | That program is one the analyzer accepts. |
| `NestedCatch.StepsDiffer` | contrib/babelfishpg_tsql/src/iterative_exec.c:949-972 | A step differs from one that looks for a TRY arm exactly at an ignorable error inside two or more CATCH arms alone; then the executor ends the run. |
| `NestedCatch.RunsAgreeWhen` | contrib/babelfishpg_tsql/src/iterative_exec.c:949-972 | Whole runs of the two agree exactly when the executor's run meets no such error. |
| `NestedCatch.FlatProgramsAgree` | contrib/babelfishpg_tsql/src/iterative_exec.c:949-972 | Every program without TRY..CATCH inside a CATCH arm runs the same with either test, whatever its statements do and wherever it jumps. |
| `Layout.TablesAgree` | contrib/babelfishpg_tsql/src/analyzer.c:79-89 | Any two tables that are right about a program agree on the scope of every GOTO and on the statement and scope of every label. |
| `Layout.VerdictUnique` | contrib/babelfishpg_tsql/src/analyzer.c:205-258 | Acceptance does not depend on which right table the check uses. |
| `Layout.PlacedCarries` | contrib/babelfishpg_tsql/src/codegen.c:122-125 | Code once placed stays placed when instructions and fresh labels are appended, and when jump targets are filled in. |
| `Analyzer.CheckTryCatch` | contrib/babelfishpg_tsql/src/analyzer.c:261-282 | Accepts exactly when the label's stack of TRY and CATCH arms is a prefix of the jump's. |
| `Analyzer.CheckLoop` | contrib/babelfishpg_tsql/src/analyzer.c:285-305 | Accepts exactly when the label's stack of loops is a prefix of the jump's. |
| `Analyzer.GainedTwo` | contrib/babelfishpg_tsql/src/analyzer.c:92-112 | Walking two parts, each in its own scope, leaves a table that is right about the whole. |
| `Analyzer.Analyzer.SaveScope` | contrib/babelfishpg_tsql/src/analyzer.c:79-89 | Stores a copy of both stacks under the statement. |
| `Analyzer.Analyzer.Walk` | contrib/babelfishpg_tsql/src/analyzer.c:92-195 | For every tree of distinct nodes: no objection exactly when BREAK and CONTINUE stand in loops and no label repeats; then both stacks come back as they were and the table holds the true scope of every statement. Each objection names a fault that is there. |
| `Analyzer.Analyzer.WalkLeaf` | contrib/babelfishpg_tsql/src/analyzer.c:115-148 | The same for single statements, with both error cases. |
| `Analyzer.Analyzer.WalkWhile` | contrib/babelfishpg_tsql/src/analyzer.c:151-165 | The loop is on the stack while its body is walked, and gone afterwards. |
| `Analyzer.Analyzer.WalkTry` | contrib/babelfishpg_tsql/src/analyzer.c:92-112 | The arm on top of the stack changes from TRY to CATCH in place, and is gone afterwards. |
| `Analyzer.Analyzer.CheckGotos` | contrib/babelfishpg_tsql/src/analyzer.c:205-258 | Accepts exactly when every GOTO has a label all of whose arms and loops surround the jump; the reason given otherwise is true of some GOTO. |
| `Analyzer.Analyzer.Analyze` | contrib/babelfishpg_tsql/src/analyzer.c:312-336 | Accepts exactly the programs with unique labels, BREAK and CONTINUE in loops and jumps that only leave blocks, and leaves a right table behind. |
| `Nesting.ScopesAreAncestors` | contrib/babelfishpg_tsql/src/analyzer.c:79-195 | For every jump, label, BREAK, CONTINUE and RETURN, the recorded scope is exactly the blocks around it in the tree. |
| `Nesting.OneIsPrefix` | contrib/babelfishpg_tsql/src/analyzer.c:261-305 | In a tree of distinct nodes, two separate prefix checks, one on arms and one on loops, imply one prefix of the interleaved blocks. |
| `Nesting.AcceptedJumpsLeadOutwards` | contrib/babelfishpg_tsql/src/analyzer.c:205-305 | Everything around the label of an accepted GOTO, loops and arms in the order they nest, is also around the GOTO. |
| `Codegen.EmitIf` | contrib/babelfishpg_tsql/src/codegen.c:353-392 | Conditional jump, branch and end label make up the code of an IF without ELSE. |
| `Codegen.EmitIfElse` | contrib/babelfishpg_tsql/src/codegen.c:353-392 | The same with an ELSE branch and the jump over it. |
| `Codegen.EmitWhile` | contrib/babelfishpg_tsql/src/codegen.c:482-521 | Begin label, conditional exit, body, jump back and end label make up the code of a loop. |
| `Codegen.EmitTry` | contrib/babelfishpg_tsql/src/codegen.c:428-466 | SAVE, TRY arm, RESTORE FULL, jump, CATCH label, CATCH arm, RESTORE PARTIAL and end label make up the code of TRY..CATCH. |
| `Codegen.Codegen.Cleanup` | contrib/babelfishpg_tsql/src/codegen.c:206-271 | Emits one restore instruction per arm the jump leaves, innermost first, full for TRY arms and partial for CATCH arms. |
| `Codegen.Codegen.Visit` | contrib/babelfishpg_tsql/src/codegen.c:277-592 | The walk appends exactly the code of the statement, registers only labels the statement owns, keeps everything emitted before, and restores its loop stack. |
| `Codegen.Codegen.VisitJump` | contrib/babelfishpg_tsql/src/codegen.c:524-592 | BREAK, CONTINUE, RETURN and GOTO: the restore instructions down to the target's depth, then the jump. |
| `Codegen.CodeResolvable` | contrib/babelfishpg_tsql/src/codegen.c:602-643 | Every label an accepted statement's code mentions is defined by itself or by what surrounds it. |
| `Codegen.Codegen.ResolveLabels` | contrib/babelfishpg_tsql/src/codegen.c:602-643 | Fills in every target, or names an undefined label; it fails exactly when the code mentions one. |
| `Codegen.Codegen.Generate` | contrib/babelfishpg_tsql/src/codegen.c:646-692 | On an accepted program generation never fails and the result is a complete image: every statement placed, every jump leading to its label, nothing after the end. |
| `Simulation.CaughtOk` | contrib/babelfishpg_tsql/src/iterative_exec.c:1602-1640 | When an error lands at the active context, the stack, the visible error, the handler and the active index describe the CATCH arm of the innermost TRY. |
| `Simulation.RestoreOk` | contrib/babelfishpg_tsql/src/iterative_exec.c:238-352 | A restore instruction takes off exactly the innermost arm, and its internal assertion on the saved error holds. |
| `Simulation.TerminatingFails` | contrib/babelfishpg_tsql/src/iterative_exec.c:1641-1647 | A terminating error passes every handler from the inside out and leaves the executor. |
| `Simulation.CleanupSim` | contrib/babelfishpg_tsql/src/codegen.c:206-271 | Running the restore instructions in front of a jump leaves exactly the contexts of the arms the target is in. |
| `Simulation.FindLabelAt` | contrib/babelfishpg_tsql/src/codegen.c:395-404 | The position registered for a label is where the code of what follows the label starts, in the recorded scope. |
| `Simulation.RefillFrames` | contrib/babelfishpg_tsql/src/codegen.c:570-592 | A jump outwards keeps the errors of the CATCH arms it stays in. |
| `Simulation.StepSim` | contrib/babelfishpg_tsql/src/iterative_exec.c:1549-1694 | Every step of the program is matched by machine steps that keep the correspondence; by none only while a measure decreases. |
| `Simulation.RunMatches` | contrib/babelfishpg_tsql/src/iterative_exec.c:1549-1694 | However far a program runs, its code reaches the matching state. |
| `Simulation.StopMatches` | contrib/babelfishpg_tsql/src/iterative_exec.c:1549-1694 | When the code stops, the program has stopped in the matching way. |
| `Simulation.HaltsAlike` | contrib/babelfishpg_tsql/src/iterative_exec.c:1519-1731 | For every accepted program, every behaviour of its data statements and every caller: the program halts with a result and a history exactly when the code finishes with them, with no error context left. |
| `Simulation.FailsAlike` | contrib/babelfishpg_tsql/src/iterative_exec.c:1519-1731 | The program is ended by an error, after a history, exactly when the executor hands that error to its caller after the same history. |
| `Simulation.NeverStuck` | contrib/babelfishpg_tsql/src/iterative_exec.c:238-352 | In no run does the executor read outside its stack, jump to a released context or break its assertion, and it finishes only with an empty stack. |
| `Simulation.GoingMatches` | contrib/babelfishpg_tsql/src/iterative_exec.c:1519-1731 | After any number of rounds that leave the code running, the program is running too; the code's history lies between those of two consecutive steps, and no step has taken more rounds than the arms around it plus three. |
| `Depth.RunWithin` | contrib/babelfishpg_tsql/src/iterative_exec.c:1549-1694 | In no run are there more arms around a statement than the program nests TRY..CATCH statements. |
| `Structured.Lands` | contrib/babelfishpg_tsql/src/iterative_exec.c:1549-1694 | However a statement is evaluated to end (normally, by BREAK, CONTINUE, RETURN or an error), the continuation semantics goes on from there. |
| `Structured.Lasts` | contrib/babelfishpg_tsql/src/iterative_exec.c:1549-1694 | A statement whose loops go round more often than the fuel allows runs for at least as many steps. |
| `Structured.Adequate` | contrib/babelfishpg_tsql/src/iterative_exec.c:1519-1731 | A program without GOTO halts or is ended by an error in the continuation semantics exactly as it is evaluated statement by statement, with the same result and history. |
| `Interpreter.Interpreter.FindActive` | contrib/babelfishpg_tsql/src/iterative_exec.c:258-269 | Searches downwards for a context whose CATCH arm is not running; without one the index stays. |
| `Interpreter.Interpreter.Land` | contrib/babelfishpg_tsql/src/iterative_exec.c:1602-1640 | Contexts above the active one are popped one by one, the active one is marked, and control moves to its CATCH arm. |
| `Interpreter.Interpreter.Throw` | contrib/babelfishpg_tsql/src/iterative_exec.c:1602-1647 | An error lands or leaves; a terminating one is thrown again from every context it lands at. |
| `Interpreter.Interpreter.HandleError` | contrib/babelfishpg_tsql/src/iterative_exec.c:1181-1260 | An ignorable error outside TRY moves on to the next instruction; every other error is thrown. |
| `Interpreter.Interpreter.Round` | contrib/babelfishpg_tsql/src/iterative_exec.c:1554-1694 | One round of the loop is one machine step. |
| `Interpreter.Interpreter.Run` | contrib/babelfishpg_tsql/src/iterative_exec.c:1519-1731 | n rounds give the machine's state after n steps; every access on the way is in range because nothing gets stuck. |
| `Interpreter.CompileAndRun` | contrib/babelfishpg_tsql/src/iterative_exec.c:1519-1731 | Check, generate and execute: rejected exactly when not accepted; a finished or failed run is a run of the program's meaning; n rounds take a run at least n / (nesting + 3) steps, so a program that ends within as many is finished. |
| `Interpreter.StructuredRun` | contrib/babelfishpg_tsql/src/iterative_exec.c:1519-1731 | The compiled code of a program without GOTO finishes or fails, with a history, exactly as the program is evaluated to. |
| `SpatialEncoder.CopyXy` | contrib/babelfishpg_common/src/spatialtypes.c:3251-3257 | The XY column holds the pairs of all points in order and nothing outside it changes. |
| `SpatialEncoder.CopyZ` | contrib/babelfishpg_common/src/spatialtypes.c:3261-3270 | The Z column holds every Z, with NaN in one fixed pattern. |
| `SpatialEncoder.CopyM` | contrib/babelfishpg_common/src/spatialtypes.c:3274-3285 | The M column holds every M, found behind Z or directly behind XY. |
| `SpatialEncoder.CopyRunsXy` | contrib/babelfishpg_common/src/spatialtypes.c:3690-3772 | Ring by ring through counts and headers, with offsets that cancel, the XY column is that of all points in order. |
| `SpatialEncoder.WritePolygonMetadata` | contrib/babelfishpg_common/src/spatialtypes.c:3408-3441 | One figure per ring, the first exterior, each starting where the rings before it end, and one shape. |
| `SpatialEncoder.WriteMultiPointMetadata` | contrib/babelfishpg_common/src/spatialtypes.c:3456-3488 | One figure and one child shape per point under a root shape. |
| `SpatialEncoder.WriteMultiLineMetadata` | contrib/babelfishpg_common/src/spatialtypes.c:3503-3556 | One stroke and one child shape per line under a root shape. |
| `SpatialEncoder.ExtraSize` | contrib/babelfishpg_common/src/spatialtypes.c:3596-3633 | The size of count and tables, by type, without 32-bit wrap. |
| `SpatialEncoder.FillPolygon` | contrib/babelfishpg_common/src/spatialtypes.c:3690-3772 | Count, columns and tables fill the rest of the buffer exactly. |
| `SpatialEncoder.FillMultiLine` | contrib/babelfishpg_common/src/spatialtypes.c:3867-3960 | The same for a multi-linestring. |
| `SpatialEncoder.CountsFit` | contrib/babelfishpg_common/src/spatialtypes.c:3965-4049 | Every count in the tables takes bytes of the input, so the size formula stays within 32 bits. |
| `SpatialEncoder.Construct` | contrib/babelfishpg_common/src/spatialtypes.c:3965-4049 | The whole buffer is the CLR form of the geometry, every byte written; no result exactly when the form exceeds the allocation limit. |
| `SpatialLayout.ClrLaidOut` | contrib/babelfishpg_common/src/spatialtypes.c:3094-3250 | The CLR form of every geometry that can be stored has that layout. |
| `SpatialLayout.Encode` | contrib/babelfishpg_common/src/spatialtypes.c:3965-4049 | Every byte of the encoder's buffer: SRID, version, the validity, dimension and short-form bits, the count, each coordinate of each point, each figure's code and offset, each shape's parent, figure and code. |
| `EwkbReader.InputRead` | contrib/babelfishpg_common/src/spatialtypes.c:3965-4049 | A reader written from the EWKB format reads the encoder's input as the geometry it is given for. |
| `SpatialDecoder.CheckFinite` | contrib/babelfishpg_common/src/spatialtypes.c:1931-1973 | Finds a non-finite X or Y exactly when there is one. |
| `SpatialDecoder.ParseTables` | contrib/babelfishpg_common/src/spatialtypes.c:2230-2345 | Reads the figure and shape tables or rejects them, exactly as the layout and offset rules say, for any bytes. |
| `SpatialDecoder.ValidatePolygon` | contrib/babelfishpg_common/src/spatialtypes.c:2141-2174 | Accepts exactly when every ring has four points; the running total always ends at the point count, so the last test never rejects. |
| `SpatialDecoder.ValidateMulti` | contrib/babelfishpg_common/src/spatialtypes.c:2182-2223 | Accepts exactly when every child is of the expected type with a figure and all figures are strokes. |
| `SpatialDecoder.RingsPartition` | contrib/babelfishpg_common/src/spatialtypes.c:2251-2278 | Rings taken from accepted figures partition the points in order. |
| `SpatialDecoder.ChildInfo` | contrib/babelfishpg_common/src/spatialtypes.c:2588-2619 | The point range of a child, with its count as the wrapped 32-bit difference. |
| `SpatialDecoder.MultiSize` | contrib/babelfishpg_common/src/spatialtypes.c:2625-2670 | The size of the result, or an error when it passes the allocation limit at some child. |
| `SpatialDecoder.UnorderedIsHuge` | contrib/babelfishpg_common/src/spatialtypes.c:2588-2619 | A child that ends before it starts never fits a buffer, so unordered offsets are always rejected. |
| `SpatialDecoder.WriteRings` | contrib/babelfishpg_common/src/spatialtypes.c:2351-2413 | Interleaves ring after ring from the columns. |
| `SpatialDecoder.WriteLines` | contrib/babelfishpg_common/src/spatialtypes.c:2519-2551 | Writes every child line with header, count and points, within the computed size. |
| `SpatialDecoder.DecodePolygon` | contrib/babelfishpg_common/src/spatialtypes.c:2384-2413 | The bytes of a polygon, or the exact error. |
| `SpatialDecoder.DecodeMultiLine` | contrib/babelfishpg_common/src/spatialtypes.c:2625-2702 | The bytes of a multi-linestring, or the exact error. |
| `SpatialDecoder.DecodeEmpty` | contrib/babelfishpg_common/src/spatialtypes.c:2818-2887 | The bytes of an empty geometry, or the exact error. |
| `SpatialDecoder.Decode` | contrib/babelfishpg_common/src/spatialtypes.c:2706-2770 | For every byte string a value can hold, the imperative decoder computes the reference reading: same bytes, same errors, every buffer access in range. |
| `EwkbReader.DecodedRead` | contrib/babelfishpg_common/src/spatialtypes.c:2706-2770 | The same reader reads whatever the decoder returns as the geometry that was parsed, each part with the kind and dimensions of the whole, followed by nothing but zeros. |
| `EwkbReader.ChildHeads` | contrib/babelfishpg_common/src/spatialtypes.c:2466-2512 | The reader takes the thousands that the decoder adds to a child's type for the same dimensions as the flags that PostGIS sends. |
| `SpatialRoundTrip.FiguresOfRuns` | contrib/babelfishpg_common/src/spatialtypes.c:2251-2278 | The parser accepts a written figure table exactly when there is a run and no run is empty. |
| `SpatialRoundTrip.TablesBack` | contrib/babelfishpg_common/src/spatialtypes.c:2230-2345 | Written tables are read back entry by entry. |
| `SpatialRoundTrip.PointsBack` | contrib/babelfishpg_common/src/spatialtypes.c:2479-2500 | Points stored in columns are read back in order, with NaN Z and M in their one pattern. |
| `SpatialRoundTrip.ChildSpan` | contrib/babelfishpg_common/src/spatialtypes.c:2588-2619 | The child range recovered for child c is exactly the points of line c - 1. |
| `SpatialRoundTrip.LinesBack` | contrib/babelfishpg_common/src/spatialtypes.c:3503-3556 | A written multi-linestring gives its lines back, points in order. |
| `SpatialRoundTrip.MultiPointsBack` | contrib/babelfishpg_common/src/spatialtypes.c:3456-3488 | A written multi-point gives its points back in order. |
| `SpatialRoundTrip.RoundTrip` | contrib/babelfishpg_common/src/spatialtypes.c:3965-4049 | For every non-empty geometry of every type and dimension: decoding its CLR form gives the geometry back exactly when its rings have four points, its lines two, its children one, X and Y are finite and the SRID is in range; every other one is rejected. |
| `SpatialRoundTrip.EncodeThenDecode` | contrib/babelfishpg_common/src/spatialtypes.c:2915-2967 | The two converters in sequence: a point, linestring or polygon with an SRID and without NaN comes back byte for byte. |
| `Decimal.RoundedIsNearest` | contrib/babelfishpg_common/src/numeric.c:794-919 | The rounded value is the nearest multiple of the unit, halves away from zero. |
| `Decimal.NearestUnique` | contrib/babelfishpg_common/src/numeric.c:794-919 | Only one multiple of the unit is nearest. |
| `Decimal.CutRounds` | contrib/babelfishpg_common/src/numeric.c:846-891 | Cutting base-10000 digits at a decimal position, with the decision taken from one digit, is rounding the exact value. |
| `Decimal.IncAddsOne` | contrib/babelfishpg_common/src/numeric.c:893-916 | Carrying from the last digit adds exactly one, keeps every digit in range, and does not pass a leading zero. |
| `Decimal.StrippedUnique` | contrib/babelfishpg_common/src/numeric.c:722-748 | A value has one stripped digit sequence and one weight. |
| `Numeric.Carry` | contrib/babelfishpg_common/src/numeric.c:893-916 | The in-place carry loop computes the increment and never passes the spare digit. |
| `Numeric.CutWithin` | contrib/babelfishpg_common/src/numeric.c:864-891 | Rounding inside the last digit, in place, with its carry. |
| `Numeric.JustBelowByLength` | contrib/babelfishpg_common/src/numeric.c:806-834 | The digit count decides whether the value lies just below the unit. |
| `Numeric.NumericVar.Round` | contrib/babelfishpg_common/src/numeric.c:794-919 | For every stripped variable and scale: the digits become exactly the value rounded half away from zero, all in 0..9999; an error exactly when the scale is negative and the value has that many integral digits. |
| `Numeric.NumericVar.Strip` | contrib/babelfishpg_common/src/numeric.c:722-748 | Zero digits at both ends disappear, the value stays, and zero becomes positive with weight zero. |
| `NumericStore.HeaderBack` | contrib/babelfishpg_common/src/numeric.c:194-222 | Unpacking a packed header gives every field back exactly when scale and weight fit, across short and long headers. |
| `NumericStore.HeaderLayout` | contrib/babelfishpg_common/src/numeric.c:194-222 | The bits at which sign, scale and weight stand in the one-word and the two-word header. |
| `NumericStore.CanonicalUnique` | contrib/babelfishpg_common/src/numeric.c:637-714 | Equal values have one canonical form. |
| `NumericStore.PackAlike` | contrib/babelfishpg_common/src/numeric.c:637-714 | Any two variables of equal value and display scale are stored in identical words, or both overflow. |
| `NumericStore.MakeResult` | contrib/babelfishpg_common/src/numeric.c:637-714 | The words of the canonical form, or overflow exactly when its weight or scale does not fit; unpacking gives that form back. |
| `NumericStore.SetFromNum` | contrib/babelfishpg_common/src/numeric.c:771-784 | Unpacks every field into storage with a zero spare digit. |
| `NumericStore.NumericRound` | contrib/babelfishpg_common/src/numeric.c:928-973 | ROUND on stored values: the stored result is the canonical form of the argument rounded half away from zero at the clamped scale, with the exact error cases; NaN stays NaN. |
| `NumericText.RunEnd` | contrib/babelfishpg_common/src/numeric.c:520-546 | The longest run of digits. |
| `NumericText.ScanMantissa` | contrib/babelfishpg_common/src/numeric.c:493-550 | Accepts exactly the texts with a digit and at most one point among the digits; the digits end up between zeros that cover every later read. |
| `NumericText.ReadInteger` | contrib/babelfishpg_common/src/numeric.c:552-566 | The exponent's sign, digits and end. |
| `NumericText.GroupOffset` | contrib/babelfishpg_common/src/numeric.c:585-596 | At most three zeros align the first group, for positive and negative weights. |
| `NumericText.GroupsAreExact` | contrib/babelfishpg_common/src/numeric.c:585-620 | Grouping in fours around the point keeps the value. |
| `NumericText.SetVarFromStr` | contrib/babelfishpg_common/src/numeric.c:475-628 | For every text: the variable stands for exactly the number the text spells, exponent included; syntax errors and exponent overflow exactly when they are there; the end position; display scale and sign. |
| `NumericGrammar.SpelledIsRead` | contrib/babelfishpg_common/src/numeric.c:475-628 | A text put together out of a sign, digits, a point, digits, an exponent and a remainder is accepted, with those digits, the scale of fraction less exponent, and the end where the remainder starts. |
| `NumericGrammar.SyntaxExact` | contrib/babelfishpg_common/src/numeric.c:475-628 | No other text is accepted. |
| `NumericGrammar.ReadNumeral` | contrib/babelfishpg_common/src/numeric.c:475-628 | Reading such a text gives exactly the number its parts say, or the overflow error exactly when its exponent is too large. |
| `MoneyPrint.PrintInt` | contrib/babelfishpg_money/fixeddecimal.c:293-350 | Digits produced backwards and reversed in place spell every 64-bit value, the smallest included. |
| `MoneyPrint.FillBack` | contrib/babelfishpg_money/fixeddecimal.c:367-413 | Fills from the end with the lowest digits and leaves zero exactly when they were all. |
| `MoneyPrint.PrintPadded` | contrib/babelfishpg_money/fixeddecimal.c:367-426 | Zero padding to a width, or the plain number when it is too wide. |
| `MoneyPrint.PrintMoney` | contrib/babelfishpg_money/fixeddecimal.c:434-475 | Every 64-bit value prints as sign, whole part, point and four decimals, also between -1 and 0. |
| `MoneyScan.DigitTestExact` | contrib/babelfishpg_money/fixeddecimal.c:628-687 | Dividing the wrapped product back detects overflow of one more digit exactly. |
| `MoneyScan.ScanIntegral` | contrib/babelfishpg_money/fixeddecimal.c:622-690 | The digits before the point with separators anywhere, or an error exactly when they do not fit 64 bits. |
| `MoneyScan.ScanFraction` | contrib/babelfishpg_money/fixeddecimal.c:692-737 | Four digits behind the point, and one more when the fifth is at least five. |
| `MoneyScan.WholeRounds` | contrib/babelfishpg_money/fixeddecimal.c:692-737 | That is the whole number rounded half away from zero to four decimals. |
| `MoneyScan.AssembleExact` | contrib/babelfishpg_money/fixeddecimal.c:772-813 | Within the guard the sign tests are an exact overflow test. |
| `MoneyScan.AssembleRightWhen` | contrib/babelfishpg_money/fixeddecimal.c:772-813 | Beyond the guard the result is right exactly when the product modulo 2^64 does not look like an unwrapped one. |
| `MoneyScan.Scan` | contrib/babelfishpg_money/fixeddecimal.c:501-816 | The scanner reads every text as the reference grammar says, with all error cases. |
| `MoneyScan.ScanExact` | contrib/babelfishpg_money/fixeddecimal.c:501-816 | Every complete text within the guard is read as its value rounded half away from zero, and rejected exactly when that does not fit 64 bits. |
| `MoneyScan.ScanRightWhen` | contrib/babelfishpg_money/fixeddecimal.c:501-816 | For every complete text, the exact condition on its integral digits under which the reading is right. |
| `MoneyScan.SlipExample` | contrib/babelfishpg_money/fixeddecimal.c:803-812 | A sixteen-digit amount that is read as 0.8384. |
| `MoneyGrammar.SpelledIsRead` | contrib/babelfishpg_money/fixeddecimal.c:501-816 | A text put together out of spaces, a sign, a currency symbol, a sign behind it, digits with separators, a point and digits is a complete number with that sign and those digits. |
| `MoneyGrammar.CompleteExact` | contrib/babelfishpg_money/fixeddecimal.c:501-816 | No other text is a complete number. |
| `MoneyGrammar.AmountRead` | contrib/babelfishpg_money/fixeddecimal.c:501-816 | Within the guard such a text is read as the number its parts say, rounded half away from zero, or rejected exactly when that does not fit. |
| `MoneyGrammar.DressIgnored` | contrib/babelfishpg_money/fixeddecimal.c:501-816 | Spaces, the symbol, the place of the sign and the separators make no difference to any reading. |
| `MoneyGrammar.MinusNegates` | contrib/babelfishpg_money/fixeddecimal.c:501-816 | A minus sign, before or behind the symbol, negates what is read. |
| `MoneyGrammar.SymbolLaws` | contrib/babelfishpg_money/fixeddecimal.c:501-816 | For every currency symbol: symbol and spaces in front of a number, and the minus sign on either side of the symbol, read as the number with the minus sign alone. |
| `MoneyScan.PrintedReadsBack` | contrib/babelfishpg_money/fixeddecimal.c:434-816 | Reading the printed form of any 64-bit value gives the value back. |
| `MoneyScan.PrintThenScan` | contrib/babelfishpg_money/fixeddecimal.c:434-816 | The printer's buffer, scanned. |
| `MoneyAggregate.SumTestExact` | contrib/babelfishpg_money/fixeddecimal.c:2996-3009 | The sign test on a sum detects overflow exactly. |
| `MoneyAggregate.AggState.Accum` | contrib/babelfishpg_money/fixeddecimal.c:2988-3011 | One more value, or an error exactly when the total leaves 64 bits. |
| `MoneyAggregate.Ship` | contrib/babelfishpg_money/fixeddecimal.c:3136-3197 | A state arrives unchanged through its 16 bytes. |
| `MoneyAggregate.Accumulate` | contrib/babelfishpg_money/fixeddecimal.c:2988-3011 | A worker succeeds exactly when no running total overflows, with the sum and count of its rows. |
| `MoneyAggregate.ParallelSum` | contrib/babelfishpg_money/fixeddecimal.c:3202-3239 | Workers on any division of the rows, shipped and combined, give the sum and count of all rows exactly when no running total, no total of the first workers and no count overflows. |
| `Calendar.DaysInDate` | contrib/babelfishpg_common/src/datetime.c:2147-2161 | The loop over the months computes the day number. |
| `Calendar.NumbersIncrease` | contrib/babelfishpg_common/src/datetime.c:2147-2161 | Day numbers follow the order of valid Gregorian dates of all years. |
| `Calendar.NextDayIsNext` | contrib/babelfishpg_common/src/datetime.c:531-549 | The next day is a valid date with the next day number. |
| `Calendar.DateOfNumber` | contrib/babelfishpg_common/src/datetime.c:531-549 | Every day number belongs to a valid date. |
| `Datetime.RoundsToTicks` | contrib/babelfishpg_common/src/datetime.c:1649-1674 | The last digits 0, 3 and 7 are the nearest tick of 1/300 second, shown in the nearest millisecond. |
| `Datetime.RoundMsIdempotent` | contrib/babelfishpg_common/src/datetime.c:1649-1674 | Rounding twice is rounding once. |
| `Datetime.RoundMsMonotone` | contrib/babelfishpg_common/src/datetime.c:1649-1674 | Rounding keeps the order. |
| `Datetime.Tm.NextDay` | contrib/babelfishpg_common/src/datetime.c:531-549 | The fields move to the next day at midnight. |
| `Datetime.Tm.CarryOver` | contrib/babelfishpg_common/src/datetime.c:552-577 | A full second of milliseconds carries as far as the year, and the point in time stays the same. |
| `Datetime.Roundoff` | contrib/babelfishpg_common/src/datetime.c:583-609 | Rounding field by field equals rounding absolute milliseconds for every 64-bit timestamp that PostgreSQL can split and put together again; an error exactly for the others. |
| `DatetimeBinary.Parts` | contrib/babelfishpg_common/src/datetime.c:945-957 | Day and tick numbers from two origins and from the fields equal one floor division. |
| `DatetimeBinary.Origins` | contrib/babelfishpg_common/src/datetime.c:945-957 | The constants are the timestamps of the dates they stand for. |
| `DatetimeBinary.DatetimeBinary` | contrib/babelfishpg_common/src/datetime.c:999-1072 | Right-aligned bytes for every length. |
| `DatetimeBinary.DatetimeVarbinary` | contrib/babelfishpg_common/src/datetime.c:920-992 | The eight bytes, or their last ones. |
| `DatetimeBinary.VarbinaryDatetime` | contrib/babelfishpg_common/src/datetime.c:870-913 | Reads any bytes as the reference says, with 64-bit wrap-around. |
| `DatetimeBinary.DecodedRightWhen` | contrib/babelfishpg_common/src/datetime.c:870-913 | The reading is that of the spelled timestamp exactly when the time of day is rejected anyway or the day is not a nonzero number of 2^64 microseconds away from the range of DATETIME. |
| `DatetimeBinary.NearDaysRight` | contrib/babelfishpg_common/src/datetime.c:870-913 | No day from 210545518 days before 1900 to 213450291 days after it is misread. |
| `DatetimeRoundTrip.WrappedDay` | contrib/babelfishpg_common/src/datetime.c:870-913 | The failing side: a day number in the year 586454 that is out of range and is read as the last day of 1899. |
| `DatetimeRoundTrip.BinaryRoundTrip` | contrib/babelfishpg_common/src/datetime.c:870-1072 | Every rounded datetime in range comes back from eight or more bytes, before and after 1900. |
| `DatetimeRoundTrip.ThroughBinary` | contrib/babelfishpg_common/src/datetime.c:870-1072 | The two converters in sequence. |
| `DateDiff.QuarterDiff` | contrib/babelfishpg_common/src/datetime.c:1799-1818 | The corrected truncating division is the difference of absolute quarter indices, in either order. |
| `DateDiff.WeekDiff` | contrib/babelfishpg_common/src/datetime.c:1824-1837 | The corrected truncating division is the difference of absolute Sunday-based week indices, in either order. |
| `DateDiff.WeeksBeginOnSunday` | contrib/babelfishpg_common/src/datetime.c:1824-1837 | The week index changes exactly on Sundays. |
| `DateDiff.TimeDiff` | contrib/babelfishpg_common/src/datetime.c:1842-1901 | The exact difference of absolute unit counts; failure exactly when that difference, or the difference without the parts of the unit itself, does not fit the register, whatever the coarser units on the way do. |
| `DateDiff.CountIs` | contrib/babelfishpg_common/src/datetime.c:1842-1901 | Each unit count is the whole number of units in the microseconds since day number zero. |
| `DateDiff.FitsUpwards` | contrib/babelfishpg_common/src/datetime.c:1842-1901 | A difference that fits in one unit fits in the coarser one it is computed from. |
| `DateDiff.NarrowImpliesWide` | contrib/babelfishpg_common/src/datetime.c:2038-2097 | Whenever the 32-bit form succeeds, the 64-bit one does too. |
| `DateDiff.WideNeverOverflows` | contrib/babelfishpg_common/src/datetime.c:2038-2097 | Between the years 1 and 9999 the 64-bit form can overflow only for nanoseconds. |
| `DateDiff.ProductFailsAlone` | contrib/babelfishpg_common/src/datetime.c:2137-2145 | A 32-bit difference that fits and is still reported as overflow, because it does not fit without its minutes. |
| `TimestampRounding.AdjustDatetime2` | contrib/babelfishpg_common/src/datetime2.c:394-464 | Both branches are one rule: the nearest multiple with halves upwards, or the one below when that passes the end of the range. |
| `TimestampRounding.ScaleOfPrecision` | contrib/babelfishpg_common/src/datetime2.c:394-464 | The table's entry for a precision is the power of ten that it cuts. |
| `TimestampRounding.Datetime2InRange` | contrib/babelfishpg_common/src/datetime2.c:394-464 | Rounding never leaves the range of the type. |
| `TimestampRounding.Datetime2Idempotent` | contrib/babelfishpg_common/src/datetime2.c:394-464 | Rounding twice is rounding once. |
| `TimestampRounding.Datetime2Monotone` | contrib/babelfishpg_common/src/datetime2.c:394-464 | Rounding keeps the order, also at the clamped end. |
| `TimestampRounding.AdjustSmalldatetime` | contrib/babelfishpg_common/src/smalldatetime.c:179-208 | Both branches are one rule: up to the next minute from 29.999 seconds on. |
| `TimestampRounding.MinuteIs` | contrib/babelfishpg_common/src/smalldatetime.c:179-208 | The result is a whole minute, at most 30.001 seconds later or less than 29.999 seconds earlier. |
| `TimestampRounding.RangeTestExact` | contrib/babelfishpg_common/src/smalldatetime.c:157-172 | The test before rounding accepts exactly what rounds into 1900-01-01 00:00 through 2079-06-06 23:59. |
| `TimestampRounding.MinuteIdempotent` | contrib/babelfishpg_common/src/smalldatetime.c:179-208 | Rounding twice is rounding once. |
| `TimestampRounding.MinuteMonotone` | contrib/babelfishpg_common/src/smalldatetime.c:179-208 | Rounding keeps the order. |
| `Wkt.PointArray.AddPoint` | contrib/babelfishpg_common/src/geo.c:230-248 | Appends one point and loses none when the array doubles. |
| `Wkt.PointArray.Determine` | contrib/babelfishpg_common/src/geo.c:259-293 | The union of the dimensions of all points; an error exactly when the scan meets a NaN before it has seen both Z and M. |
| `Wkt.PointArray.Transform` | contrib/babelfishpg_common/src/geo.c:302-334 | Every point is widened in place. |
| `Wkt.DetermineRings` | contrib/babelfishpg_common/src/geo.c:547-567 | The union over all rings; an error exactly when some ring's scan meets a NaN and the rings before it do not have both Z and M. |
| `Wkt.TransformRings` | contrib/babelfishpg_common/src/geo.c:573-582 | Every point of every ring is widened. |
| `Wkt.WidenKeeps` | contrib/babelfishpg_common/src/geo.c:302-334 | A widened point has exactly the flags of the kind, keeps what it had, and has NaN for what it had not. |
| `Wkt.FormatForTsql` | contrib/babelfishpg_common/src/geo.c:356-392 | Prints a NaN as missing, with NULL for a missing Z before M. |
| `Wkt.TokensAre` | contrib/babelfishpg_common/src/geo.c:356-392 | The printed point is X, Y, then Z or NULL in its place, then M. |
| `Wkt.PrintedAsWritten` | contrib/babelfishpg_common/src/geo.c:356-392 | A widened point prints as the original point was written exactly when it has no NaN of its own. |
| `Wkt.Unify` | contrib/babelfishpg_common/src/geo.c:547-582 | For any rings: an error exactly when a NaN is met, and nothing changes; otherwise one set of flags for all points, and each prints as written exactly when it has no NaN of its own. |
| `Wkt.NaNUnnoticed` | contrib/babelfishpg_common/src/geo.c:259-293 | A NaN behind the point where the scan stops is accepted and printed as missing. |
| `Wkt.RingUnnoticed` | contrib/babelfishpg_common/src/geo.c:547-567 | A ring that is an error by itself is accepted behind a ring with both Z and M. |

## Left out

- Data statements, conditions, transactions and savepoints of the executor: an arbitrary function of the history decides how each ends.
- Memory contexts, tracing, explain modes and protocol callbacks of the executor.
- Label names cut to 63 bytes in the hash tables of the analyzer and generator.
- Codegen.Codegen.Generate: statement kinds that only add one instruction are one kind in the model.
- PostGIS and GEOS: the encoder takes the bytes PostGIS sends, with the geometry they stand for, the point count and the validity flag, as inputs.
- Empty geometries with Z or M on the encoding side, and latitude checks of geography values.
- Multi-polygons, collections and curves, which the converters reject.
- SpatialRoundTrip.EncodeThenDecode: byte identity is not claimed for multi-geometries, whose child headers change form, for NaN Z or M, or for input without SRID; the geometry itself is still proved to come back.
- Numeric arithmetic other than rounding, which is PostgreSQL's.
- NumericText.SetVarFromStr: texts longer than the allocation limit are not modelled.
- The two-decimal form of the money printer, money multiplication and division, and the cross-type comparisons.
- Date and time texts, time zones, DATETIMEOFFSET and the numeric conversions of DATETIME.
- Year, month and day differences of DATEDIFF, which are single subtractions, and years before 1.
- SQL_VARIANT, collations, BIT, UNIQUEIDENTIFIER and the wire protocol.
- The characters of printed well-known text: a printed point is a sequence of coordinates and NULL.
