# A model of librapid's logging and formatting core

librapid logs through the spdlog and fmt sources it ships: messages are formatted,
handed to a pool of workers over a bounded queue, and written to a file that rotates
by size. It also brings its own text form of UUIDs. This project models those parts
in Dafny and proves what they promise, for all inputs and all runs.

| file | component |
|---|---|
| Arithmetic.dfy, Decimal.dfy | plain decimal notation, the reference for all integer code |
| CountDigits.dfy, DecimalFormatter.dfy, FormatDecimal.dfy, ParseInt.dfy, FpMultiply.dfy | integer arithmetic of fmt: fast forms against the reference |
| FormatSpecs.dfy, FormatString.dfy | format specifications and format strings |
| Bits.dfy, PackedArgs.dfy, MemoryBuffer.dfy | bit operations, type-erased arguments and the growing buffer |
| CircularQ.dfy | the ring buffer |
| AsyncPool.dfy | the asynchronous pool as a system of atomic steps |
| AsyncPoolSafety.dfy, AsyncPoolShutdown.dfy, AsyncPoolDelivery.dfy | its invariant and what follows from it |
| AsyncPoolRuns.dfy | the runs there are: every sequence of posts reaches the sinks |
| FileNames.dfy, RotatingFileSink.dfy | file names and the rotating sink |
| LogTime.dfy, PatternFormatter.dfy | printed times, the pattern compiler and its time caches |
| Uuid.dfy | the UUID text codec (section 3 of RFC 4122) |

Imperative source code is a class or a method with loops here, proved against a
function; what the source promises is proved about that function. The pool is a
transition system: a step is one critical section of the queue, one notification
after the mutex was released, one wake-up (notified, spurious or timed out) or the
handling of one message; threads interleave freely, and any number of them may post.

Where the code is not what one would expect of it, the code is modelled and the
deviation is a theorem: a concrete input, and the exact condition where a result
depends on one.

- `fromString` accepts dashes in places other than the four of the 8-4-4-4-12 form: 36
  dashes are accepted and print differently (`Uuid.OnlyDashes`); a text prints back
  exactly if it has no such dash (`Uuid.PrintOfParse`).
- A pattern formatter starts with a zeroed time that counts as the time of second 0:
  a run beginning there prints the year 1900 (`PatternFormatting.SecondZero`), and such
  runs are the only ones that can show the cache (`PatternFormatting.CacheInvisible`).
- `parse_format_specs` reads some printed specifications differently: a width of 0
  becomes the zero flag, a type + a sign (`FormatSpecs.LostSpecifications`); the exact
  condition is `FormatSpecs.RoundTripExactly`.
- On a queue of capacity 0 the destructor of the pool waits for ever
  (`AsyncPoolShutdown.ZeroCapacityNeverJoins`), on any larger one it does not
  (`AsyncPoolShutdown.NoDeadlock`, `AsyncPoolShutdown.ShutdownIsBounded`).
- The rotating sink keeps `max_files` rotated files besides the log file, so
  max_files + 1 in all (`RotatingFileSinks.RunKeepsNewest`), and a message too large
  for any file rotates even an empty log file (`RotatingFileSinks.EmptyFileRotates`).
- The 12-hour clock of %I and %r, documented as 1 to 12, prints 00 in the hour after
  midnight and is right otherwise (`PatternFormatting.TwelveHours`).
- The term `n / 9` of the fixed-point multiplier is always 0
  (`DecimalFormatting.NoCorrection`).

`dafny verify dfyconfig.toml` checks everything.

## Model

| member | source | states |
|---|---|---|
| `CountDigits.BitTrick` | thirdparty/spdlog/include/spdlog/fmt/bundled/format.h:1081-1087 | for every n below 2^width (width up to 64) the index (width - CLZ(n or 1)) * 1233 >> 12 stays inside the table, and comparing n with that entry gives the exact number of decimal digits |
| `CountDigits.IndexInTable` | thirdparty/spdlog/include/spdlog/fmt/bundled/format.h:1085-1086 | the index is at most width * 1233 / 4096: 9 for 32 bits, 19 for 64 bits |
| `CountDigits.Boundary` | thirdparty/spdlog/include/spdlog/fmt/bundled/format.h:1085 | why 1233 and 12 are right: the largest power of two sharing index t lies between 10^t and 10^(t+1) |
| `CountDigits.CountDigits64` | thirdparty/spdlog/include/spdlog/fmt/bundled/format.h:1081-1087 | the 64-bit bit trick equals the length of the decimal notation |
| `CountDigits.CountDigits32` | thirdparty/spdlog/include/spdlog/fmt/bundled/format.h:1204-1208 | the 32-bit bit trick, with the shorter table, equals the length of the decimal notation |
| `CountDigits.CountDigitsFallback` | thirdparty/spdlog/include/spdlog/fmt/bundled/format.h:1090-1109 | the loop dividing by 10000 computes the same digit count for every number |
| `CountDigits.TableEntry` | thirdparty/spdlog/include/spdlog/fmt/bundled/format-inl.h:263-271 | the table has 20 entries: 0 and then the powers of ten |
| `DecimalFormatting.PairAt` | thirdparty/spdlog/include/spdlog/fmt/bundled/format-inl.h:257-261 | the literal table DIGITS holds the two digits of every number below 100 at twice that number |
| `DecimalFormatting.ScaledError` | thirdparty/spdlog/include/spdlog/fmt/bundled/format.h:1165-1168 | for each N from 2 to 9 and every u of at most N + 1 digits the 64-bit product does not overflow and the 4.32 fixed-point value differs from u / 10^(N-1) by an error in [0, 1/10^(N-1)): the accuracy all later digits rely on |
| `DecimalFormatting.NoCorrection` | thirdparty/spdlog/include/spdlog/fmt/bundled/format.h:1167 | the term n / 9 of the multiplier never counts, since n is at most 8 |
| `DecimalFormatting.NextDigits` | thirdparty/spdlog/include/spdlog/fmt/bundled/format.h:1170-1178 | multiplying the fraction by 100 (or 10) does not overflow, yields the next two digits (one digit) of u exactly, and keeps the error bound for the shorter divisor |
| `DecimalFormatting.IntegerPart` | thirdparty/spdlog/include/spdlog/fmt/bundled/format.h:1169 | the integer part of any value within the error bound is the exact quotient |
| `DecimalFormatting.DecimalFormatter.On` | thirdparty/spdlog/include/spdlog/fmt/bundled/format.h:1150-1181 | on<N> writes exactly the N + 1 decimal digits of u at the buffer pointer, moves the pointer past them and leaves every other cell alone |
| `DecimalFormatting.DigitThresholds` | thirdparty/spdlog/include/spdlog/fmt/bundled/format.h:1125-1129 | the comparisons of lg choose N = number of digits - 1 |
| `DecimalFormatting.Lg` | thirdparty/spdlog/include/spdlog/fmt/bundled/format.h:1123-1130 | lg with decimal_formatter writes the decimal notation of every 32-bit number |
| `DecimalWriting.FormatDecimal` | thirdparty/spdlog/include/spdlog/fmt/bundled/format.h:1257-1283 | the two-digits-at-a-time loop with add_thousands_sep fills exactly the announced cells with the grouped decimal of the value, and touches nothing else |
| `DecimalWriting.AddThousandsSep.Call` | thirdparty/spdlog/include/spdlog/fmt/bundled/format.h:1241-1247 | the functor counts the digit and puts the separator in front of every third one |
| `DecimalWriting.EmitFormsGroups` | thirdparty/spdlog/include/spdlog/fmt/bundled/format.h:1261-1282 | the right-to-left digit and separator order is the grouping of the decimal notation from the right |
| `DecimalWriting.GroupedSize` | thirdparty/spdlog/include/spdlog/fmt/bundled/format.h:3200-3202 | D digits take D + size of separator * ((D - 1) / 3) cells, the size on_num reserves |
| `DecimalWriting.OnNum` | thirdparty/spdlog/include/spdlog/fmt/bundled/format.h:3190-3204 | counting the digits, adding a cell for each separator and writing the groups fills exactly D + (D - 1) / 3 cells for every 32- and 64-bit value |
| `DecimalWriting.SeparatorPlaces` | thirdparty/spdlog/include/spdlog/fmt/bundled/format.h:1241-1247 | counted from the right, separators stand exactly after each third digit, never first, and every other cell holds the digit that belongs there |
| `DecimalWriting.GroupingIsReversible` | thirdparty/spdlog/include/spdlog/fmt/bundled/format.h:3198-3204 | deleting every fourth cell from the right gives the plain decimal back, whatever the separator character |
| `DecimalWriting.NothingGrouped` | thirdparty/spdlog/include/spdlog/fmt/bundled/format.h:1212-1220 | without a separator the grouped text is the plain decimal |
| `DecimalWriting.NegateUnsigned` | thirdparty/spdlog/include/spdlog/fmt/bundled/format.h:3042-3045 | converting to unsigned and subtracting from 0 at the word size gives the absolute value, the least signed number included |
| `DecimalWriting.WriteDecimal` | thirdparty/spdlog/include/spdlog/fmt/bundled/format.h:3039-3051 | writes sign and digits of every representable 32- and 64-bit value into exactly the reserved cells |
| `DecimalWriting.FormatInt.FormatDecimal` | thirdparty/spdlog/include/spdlog/fmt/bundled/format.h:3718-3740 | writes the digits of every 64-bit value at the end of the 22-byte buffer, leaving room for a sign |
| `DecimalWriting.FormatInt.Signed` | thirdparty/spdlog/include/spdlog/fmt/bundled/format.h:3742-3751 | format_int of every signed 64-bit value is its decimal text, inside the buffer |
| `DecimalWriting.FormatInt.Unsigned` | thirdparty/spdlog/include/spdlog/fmt/bundled/format.h:3718-3740 | format_int of every unsigned 64-bit value is its decimal text, inside the buffer |
| `DecimalWriting.SignedRoundTrip` | thirdparty/spdlog/include/spdlog/fmt/bundled/format.h:3742-3751 | reading the printed text gives the value back |
| `DecimalWriting.DigitsFit` | thirdparty/spdlog/include/spdlog/fmt/bundled/format.h:3710-3713 | a 64-bit value has at most 20 digits |
| `ParseInt.ParseNonnegativeInt` | thirdparty/spdlog/include/spdlog/fmt/bundled/format.h:1996-2020 | on any text starting with a digit the guarded 32-bit loop never wraps, reads the whole run of digits unless it fails, and reports an error exactly if the true value of the run exceeds INT_MAX |
| `ParseInt.IntegerOfDigits` | thirdparty/spdlog/include/spdlog/fmt/bundled/format.h:1996-2020 | parsing inverts printing for every number up to INT_MAX and rejects every larger one |
| `FpMultiply.ProductFits` | thirdparty/spdlog/include/spdlog/fmt/bundled/format-inl.h:309-311 | products of 32-bit halves fit into 64 bits |
| `FpMultiply.UpperIsRounded` | thirdparty/spdlog/include/spdlog/fmt/bundled/format-inl.h:311-314 | the middle sum and the final sum do not overflow, and the upper word is the product rounded half up |
| `FpMultiply.MultiplyRounds` | thirdparty/spdlog/include/spdlog/fmt/bundled/format-inl.h:305-315 | for all 64-bit significands the result is floor((x.f * y.f + 2^63) / 2^64), fits 64 bits, is off by at most half a unit, and the exponent is x.e + y.e + 64 |
| `FormatSpecs.PrintThenParse` | thirdparty/spdlog/include/spdlog/fmt/bundled/format.h:2528-2649 | printing any well-formed specification in grammar order and parsing it gives the specification back and stops at the closing brace |
| `FormatSpecs.ParsedIsWellFormed` | thirdparty/spdlog/include/spdlog/fmt/bundled/format.h:2528-2649 | whatever the parser accepts is well-formed, and it stops inside the text |
| `FormatSpecs.RoundTripExactly` | thirdparty/spdlog/include/spdlog/fmt/bundled/format.h:2528-2649 | a specification survives printing and parsing if and only if it is well-formed; the condition includes the two clashes of the grammar (width 0 without the zero flag, a type character that reads as another part) |
| `FormatSpecs.LostSpecifications` | thirdparty/spdlog/include/spdlog/fmt/bundled/format.h:2598-2603 | the witnesses: width 0 prints "0", which reads as the zero flag, and type + prints "+", which reads as a sign |
| `FormatSpecs.FirstCharacter` | thirdparty/spdlog/include/spdlog/fmt/bundled/format.h:2530-2647 | what the first character of a specification makes the parser report, character by character, when no alignment stands in second place: the alignment, sign, #, 0, a width, a dynamic width, a precision, or else the type |
| `FormatSpecs.SecondCharacter` | thirdparty/spdlog/include/spdlog/fmt/bundled/format.h:2536-2572 | an alignment character in second place reports the first character as fill and then that alignment |
| `FormatSpecs.BraceFill` | thirdparty/spdlog/include/spdlog/fmt/bundled/format.h:2558-2564 | an opening brace is refused as fill |
| `FormatSpecs.FirstOfId` | thirdparty/spdlog/include/spdlog/fmt/bundled/format.h:2431-2452 | the first character of an id decides: brace or colon is an automatic id, a digit an index that must be followed by one of these, and anything but a letter or underscore is otherwise an error |
| `FormatSpecs.NamesAreRead` | thirdparty/spdlog/include/spdlog/fmt/bundled/format.h:1987-1990 | every name of letters, digits and underscores that does not begin with a digit is read as that name |
| `FormatSpecs.OnlyNamesAreRead` | thirdparty/spdlog/include/spdlog/fmt/bundled/format.h:2448-2458 | and no other |
| `FormatSpecs.NormalForm` | thirdparty/spdlog/include/spdlog/fmt/bundled/format.h:2528-2649 | printing what was parsed parses to the same again |
| `FormatSpecs.CallbacksDetermineSpec` | thirdparty/spdlog/include/spdlog/fmt/bundled/format.h:2566-2570 | the sequence of handler callbacks determines the specification |
| `FormatSpecs.ParseFormatSpecs` | thirdparty/spdlog/include/spdlog/fmt/bundled/format.h:2528-2649 | the scanning loop makes exactly the callbacks of the specification, in grammar order, and returns the right place, or fails with the message of the first error after the callbacks for exactly the parts read before it, in grammar order (an id in braces is reported before its closing brace is checked) |
| `FormatSpecs.ScanAlign` | thirdparty/spdlog/include/spdlog/fmt/bundled/format.h:2536-2573 | the loop over offsets 1 and 0 finds fill and alignment, the later place first |
| `FormatSpecs.ScanFlags` | thirdparty/spdlog/include/spdlog/fmt/bundled/format.h:2575-2603 | sign, hash and zero flag, in this order, each at most once |
| `FormatSpecs.ScanCount` | thirdparty/spdlog/include/spdlog/fmt/bundled/format.h:2605-2636 | a static or dynamic width or precision |
| `FormatSpecs.IdRoundTrip` | thirdparty/spdlog/include/spdlog/fmt/bundled/format.h:2428-2460 | a printed argument id is parsed back, up to the brace or colon that ends it |
| `FormatSpecs.ParsedIdIsValid` | thirdparty/spdlog/include/spdlog/fmt/bundled/format.h:2428-2460 | accepted ids are valid and what follows is a suffix of the text |
| `FormatSpecs.ParseId` | thirdparty/spdlog/include/spdlog/fmt/bundled/format.h:2428-2460 | the scanning code computes the parse of an id on every text |
| `FormatSpecs.ScanName` | thirdparty/spdlog/include/spdlog/fmt/bundled/format.h:2453-2457 | the name loop stops at the end of the longest run of name characters |
| `FormatString.ParseFormatString` | thirdparty/spdlog/include/spdlog/fmt/bundled/format.h:2681-2727 | the loop over the whole format string, with its indexing state, computes the recursive parse of every string; its measure is the text left, and it never reads behind the end |
| `FormatString.FirstOfText` | thirdparty/spdlog/include/spdlog/fmt/bundled/format.h:2685-2700 | only braces and NUL are special: a doubled brace is one literal brace, a lone closing brace is an error |
| `FormatString.FieldEnds` | thirdparty/spdlog/include/spdlog/fmt/bundled/format.h:2703-2724 | an accepted field ends with the closing brace directly before what follows it |
| `FormatString.IdsInOrder` | thirdparty/spdlog/include/spdlog/fmt/bundled/format.h:2703-2711 | automatic ids go to the field, then its width, then its precision |
| `FormatString.FieldShrinks` | thirdparty/spdlog/include/spdlog/fmt/bundled/format.h:2703-2724 | an accepted replacement field consumes at least one character |
| `FormatString.ParseIsAssignedItems` | thirdparty/spdlog/include/spdlog/fmt/bundled/format.h:2681-2727 | parsing is splitting into text and fields followed by the assignment of argument ids |
| `FormatString.ItemsOfPrinted` | thirdparty/spdlog/include/spdlog/fmt/bundled/format.h:2681-2727 | splitting the printed form of any valid items gives the items back |
| `FormatString.ParsedItemsAreValid` | thirdparty/spdlog/include/spdlog/fmt/bundled/format.h:2681-2727 | accepted strings split into valid items |
| `FormatString.NormalFormatString` | thirdparty/spdlog/include/spdlog/fmt/bundled/format.h:2681-2727 | printing the items of an accepted string gives a string with the same meaning |
| `FormatString.EscapedText` | thirdparty/spdlog/include/spdlog/fmt/bundled/format.h:2688-2695 | a text with its braces doubled formats to that text up to its first NUL, and refers to no argument |
| `FormatString.NulFree` | thirdparty/spdlog/include/spdlog/fmt/bundled/format.h:2685 | so NUL-free texts, and only those, come back whole |
| `FormatString.IndexingRule` | thirdparty/spdlog/include/spdlog/fmt/bundled/format.h:1588-1595 | ids are accepted from a given state exactly if automatic and manual ones are not mixed with each other or with the state; the k-th automatic id is the k-th number |
| `FormatString.AcceptedExactly` | thirdparty/spdlog/include/spdlog/fmt/bundled/format.h:2681-2727 | a format string is accepted if and only if it splits into valid items that do not mix automatic and manual ids; the k-th automatic id is then k - 1 |
| `FormatString.AssignedIds` | thirdparty/spdlog/include/spdlog/fmt/bundled/format.h:2703-2711 | the ids of nested widths and precisions are assigned in the same left-to-right order as those of the fields |
| `FormatString.ParseContext.NextArgId` | thirdparty/spdlog/include/spdlog/fmt/bundled/format.h:1589-1595 | returns the next automatic index, or an error after manual indexing |
| `FormatString.ParseContext.CheckArgId` | thirdparty/spdlog/include/spdlog/fmt/bundled/core.h:908-917 | switches to manual indexing, or an error after automatic indexing |
| `PackedArgs.CodesAreOrdered` | thirdparty/spdlog/include/spdlog/fmt/bundled/core.h:514-536 | the numbers of the argument types are their places in the enumeration |
| `PackedArgs.TypesFit` | thirdparty/spdlog/include/spdlog/fmt/bundled/core.h:1149-1153 | fourteen 4-bit types never exceed 56 bits, so the packing shifts nothing out |
| `Bits.OrFour` | thirdparty/spdlog/include/spdlog/fmt/bundled/core.h:1152 | or-ing a 4-bit number under a multiple of sixteen adds it |
| `Bits.FieldIsQuotient` | thirdparty/spdlog/include/spdlog/fmt/bundled/core.h:1278-1280 | masking with a shifted 0xf and shifting back reads a hexadecimal digit of the word, for every shift that keeps the mask inside the word |
| `PackedArgs.PackOne` | thirdparty/spdlog/include/spdlog/fmt/bundled/core.h:1152 | one step of the packing, an or with the shifted rest, is kind + 16 * rest as long as nothing leaves the word |
| `PackedArgs.TypeIs` | thirdparty/spdlog/include/spdlog/fmt/bundled/core.h:1276-1281 | type() by shift and mask is the hexadecimal digit at the index |
| `PackedArgs.TypeAt` | thirdparty/spdlog/include/spdlog/fmt/bundled/core.h:1276-1281 | for every list below the limit and every index the field read by shift and mask is the type packed there, and none past the end |
| `PackedArgs.SignTellsLayout` | thirdparty/spdlog/include/spdlog/fmt/bundled/core.h:1201-1204 | the word is non-negative exactly for packed lists; otherwise it is the negated number of arguments |
| `PackedArgs.DoGet` | thirdparty/spdlog/include/spdlog/fmt/bundled/core.h:1294-1311 | do_get finds every argument of every list and none past the end, never reading the wrong half of the union or outside it |
| `PackedArgs.FieldFourteen` | thirdparty/spdlog/include/spdlog/fmt/bundled/format.h:1777 | for a negated count n, field 14 reads as none exactly if (n - 1) / 2^56 is 15 modulo 16, which is out of reach of any argument list |
| `PackedArgs.InitTest` | thirdparty/spdlog/include/spdlog/fmt/bundled/format.h:1777 | hence for up to 15 * 2^56 arguments the test at slot 14 tells packed from unpacked as the sign does |
| `PackedArgs.InitStopsExactly` | thirdparty/spdlog/include/spdlog/fmt/bundled/format.h:1796-1802 | the loop over an unsigned index meets the terminator if and only if there are fewer than 2^32 arguments |
| `PackedArgs.NamedAt` | thirdparty/spdlog/include/spdlog/fmt/bundled/format.h:1783-1792 | the collected values are those of the named arguments, each behind the ones before it |
| `PackedArgs.InitMap` | thirdparty/spdlog/include/spdlog/fmt/bundled/format.h:1772-1809 | for fewer than 2^32 arguments both loops over the unsigned index stop, stay inside their array and collect exactly the named arguments, within the entries that max_size() as unsigned allocates |
| `MemoryBuffer.GainsAThird` | thirdparty/spdlog/include/spdlog/fmt/bundled/format.h:703-708 | growing makes the old capacity at most three quarters of the new one, the floor in capacity / 2 included |
| `MemoryBuffer.PushIsAmortised` | thirdparty/spdlog/include/spdlog/fmt/bundled/format.h:702-719 | whatever has been copied so far within four times the size, n further push_backs keep it so |
| `MemoryBuffer.GrownCapacity` | thirdparty/spdlog/include/spdlog/fmt/bundled/format.h:703-708 | the new capacity is the larger of the request and half as much again, rounded down |
| `MemoryBuffer.Buffer.Grow` | thirdparty/spdlog/include/spdlog/fmt/bundled/format.h:703-719 | contents are kept in a new array of that capacity |
| `MemoryBuffer.Buffer.Reserve` | thirdparty/spdlog/include/spdlog/fmt/bundled/core.h:428-432 | contents are kept and the capacity suffices; copying happens only when it did not |
| `MemoryBuffer.Buffer.PushBack` | thirdparty/spdlog/include/spdlog/fmt/bundled/core.h:434-438 | appends one element, and moves all elements exactly if the capacity was used up |
| `MemoryBuffer.AppendCStr` | thirdparty/spdlog/include/spdlog/details/fmt_helper.h:22-31 | appends the characters of a C string up to its NUL; its push_backs move PushCost elements, so a buffer that moved at most four times its size still has |
| `MemoryBuffer.Buffer.Append` | thirdparty/spdlog/include/spdlog/fmt/bundled/format.h:563-569 | appends a range |
| `MemoryBuffer.Perform` | thirdparty/spdlog/include/spdlog/fmt/bundled/core.h:427-438 | any run of push_back, append and reserve on any inline size leaves what a plain sequence would hold, and grow copies at most four times the largest size requested |
| `CircularQ.Ring.constructor` | thirdparty/spdlog/include/spdlog/details/circular_q.h:19-23 | an empty ring for any capacity, zero included |
| `CircularQ.Ring.PushBack` | thirdparty/spdlog/include/spdlog/details/circular_q.h:26-36 | appends to the bounded sequence, drops the oldest element of a full one and counts that |
| `CircularQ.Ring.PopFront` | thirdparty/spdlog/include/spdlog/details/circular_q.h:40-44 | takes the oldest element of a non-empty ring |
| `CircularQ.Ring.Empty` | thirdparty/spdlog/include/spdlog/details/circular_q.h:46-49 | true exactly if the sequence is empty |
| `CircularQ.Ring.Full` | thirdparty/spdlog/include/spdlog/details/circular_q.h:51-55 | true exactly if the length is the capacity |
| `CircularQ.SliceAppend` | thirdparty/spdlog/include/spdlog/details/circular_q.h:26-30 | writing at the tail appends to the cells between head and tail, around the end of the vector too |
| `CircularQ.FifoRun` | thirdparty/spdlog/include/spdlog/details/circular_q.h:26-44 | over any run the pushed elements are those that left, in their order of leaving, followed by those inside; their number is popped + overrun + inside |
| `CircularQ.Perform` | thirdparty/spdlog/include/spdlog/details/circular_q.h:14-70 | the ring of indices produces exactly the history of the bounded sequence, and pushed = popped + live + overrun_counter |
| `AsyncPoolSafety.TicketsKept` | thirdparty/spdlog/include/spdlog/details/mpmc_blocking_q.h:35-69 | every step keeps the queue the newest consecutive messages within the capacity; everything older has left it |
| `AsyncPoolSafety.ProducersWokenKept` | thirdparty/spdlog/include/spdlog/details/mpmc_blocking_q.h:35-43 | every step keeps: if a producer sleeps, free slots <= pending pop notifications + woken producers |
| `AsyncPoolSafety.ConsumersWokenKept` | thirdparty/spdlog/include/spdlog/details/mpmc_blocking_q.h:57-69 | every step keeps: if a consumer sleeps, queued items <= pending push notifications + woken consumers |
| `AsyncPoolSafety.GateKept` | thirdparty/spdlog/include/spdlog/details/async_logger_impl.h:39-65 | every step keeps: once the last owner of the pool is gone only the destructor posts, and it alone posts terminates |
| `AsyncPoolSafety.TokensKept` | thirdparty/spdlog/include/spdlog/details/thread_pool.h:130-147 | every step keeps: terminates to post + being posted + posted = workers, and one worker is done for each terminate handled |
| `AsyncPoolSafety.DeliveryKept` | thirdparty/spdlog/include/spdlog/details/thread_pool.h:190-221 | every step keeps: the sinks saw exactly the handled log messages, each once |
| `AsyncPoolSafety.InvKept` | thirdparty/spdlog/include/spdlog/details/thread_pool.h:107-222 | every enabled step (wait, spurious wake-up, time-out, notification after unlock, handling, closing) keeps the whole invariant |
| `AsyncPoolSafety.Reachable` | thirdparty/spdlog/include/spdlog/details/thread_pool.h:113-222 | every state of every run from the constructor satisfies the invariant |
| `AsyncPoolSafety.NoLostWakeUp` | thirdparty/spdlog/include/spdlog/details/mpmc_blocking_q.h:35-69 | with no notification or wake-up under way, a sleeping producer means a full queue and a sleeping consumer an empty one |
| `AsyncPoolSafety.FlushBarrier` | thirdparty/spdlog/include/spdlog/details/thread_pool.h:199-218 | when a worker holds a message, a flush in particular, at most k - 1 older log messages that were not overrun are unlogged, for k workers |
| `AsyncPoolSafety.SingleWorkerOrder` | thirdparty/spdlog/include/spdlog/details/thread_pool.h:182-221 | with one worker the sinks see the order of enqueueing less the overruns, and everything older than the message in hand is logged |
| `AsyncPoolShutdown.NoDeadlock` | thirdparty/spdlog/include/spdlog/details/thread_pool.h:130-147 | with capacity >= 1 and a worker, in every reachable state of a running pool with a post under way or a message queued, and of a closing pool until the join is over, some thread can take a step of its own (no new post, time-out or spurious wake-up) |
| `AsyncPoolShutdown.MeasureFalls` | thirdparty/spdlog/include/spdlog/details/thread_pool.h:130-221 | on a running or closing pool every step that carries on lowers a measure over unposted, queued and held messages; a post adds 12, closing 13 per worker, a spurious wake-up or time-out at most two |
| `AsyncPoolShutdown.WorkIsBounded` | thirdparty/spdlog/include/spdlog/details/thread_pool.h:113-221 | over any run productive steps <= measure at the start + what posts, closing, spurious wake-ups and time-outs add: no livelock |
| `AsyncPoolShutdown.ShutdownIsBounded` | thirdparty/spdlog/include/spdlog/details/thread_pool.h:130-221 | so any run of the destructor takes at most measure + 2 * (spurious wake-ups and time-outs) productive steps |
| `AsyncPoolShutdown.CanFinish` | thirdparty/spdlog/include/spdlog/details/thread_pool.h:113-221 | from every state of a running pool productive steps alone get all posts through and the queue emptied, and from every closing state they reach the join |
| `AsyncPoolShutdown.JoinedIsDrained` | thirdparty/spdlog/include/spdlog/details/thread_pool.h:134-142 | after the join the queue is empty, nothing is in hand, and every accepted log message that was not overrun is in the sinks exactly once |
| `AsyncPoolShutdown.ZeroCapacityNeverJoins` | thirdparty/spdlog/include/spdlog/details/thread_pool.h:134-137 | the capacity condition is exact: from the constructor with capacity 0 no run ever reaches the join |
| `AsyncPoolShutdown.BlockingNeverOverruns` | thirdparty/spdlog/include/spdlog/details/thread_pool.h:170-180 | if every post uses the blocking policy nothing is ever overrun |
| `AsyncPoolRuns.EveryPostCanBeLogged` | thirdparty/spdlog/include/spdlog/details/thread_pool.h:149-221 | runs exist: from every new pool with capacity >= 1 and for every sequence of log and flush calls, by any threads and with either policy, some run makes exactly these calls and ends quiet with exactly the log messages in the sinks, in order |
| `AsyncPoolRuns.EveryPostSurvivesTheJoin` | thirdparty/spdlog/include/spdlog/details/thread_pool.h:130-221 | and some run goes on to the join with the same messages in the sinks |
| `AsyncPoolRuns.OverrunNeverSleeps` | thirdparty/spdlog/include/spdlog/details/mpmc_blocking_q.h:46-53 | an overrun_oldest post can always push and never waits; on a full queue it drops exactly the oldest message and counts it |
| `AsyncPoolRuns.BlockingWaitsWhenFull` | thirdparty/spdlog/include/spdlog/details/mpmc_blocking_q.h:35-43 | a blocking post goes in exactly while there is room and waits exactly on a full queue |
| `AsyncPoolRuns.WaitersMayWake` | thirdparty/spdlog/include/spdlog/details/mpmc_blocking_q.h:57-64 | waiting threads may wake without cause or by time-out at any time, and a worker whose time is up with the queue empty starts over |
| `AsyncPoolDelivery.Conservation` | thirdparty/spdlog/include/spdlog/details/thread_pool.h:149-221 | for every message and every run: posted = in the record of the queue + still with a posting thread, and the sinks hold it as often as it was handled |
| `AsyncPoolDelivery.PostedIsLoggedOrOverrun` | thirdparty/spdlog/include/spdlog/details/thread_pool.h:130-221 | after the join each log message was logged as often as posted, less the copies that were overrun |
| `AsyncPoolDelivery.EverythingDelivered` | thirdparty/spdlog/include/spdlog/details/thread_pool.h:130-221 | with the blocking policy alone, after the join each log message was logged exactly as often as posted |
| `FileNames.SplitByExtension` | thirdparty/spdlog/include/spdlog/details/file_helper.h:126-146 | base and extension together are the name; the extension is not empty exactly if it starts at the last dot of a proper file name, and empty only if there is no such place |
| `FileNames.SplitExactly` | thirdparty/spdlog/include/spdlog/details/file_helper.h:126-146 | (base, ext) is the split if and only if ext is a dot with at least one character behind it and neither dot nor separator in them, and base is neither empty nor ends in a separator; so hidden files and dots in folders are no extensions |
| `FileNames.DocumentedSplits` | thirdparty/spdlog/include/spdlog/details/file_helper.h:114-125 | the examples with an extension in the comment |
| `FileNames.DocumentedNames` | thirdparty/spdlog/include/spdlog/details/file_helper.h:114-125 | the examples without an extension in the comment |
| `FileNames.DocumentedRotation` | thirdparty/spdlog/include/spdlog/sinks/rotating_file_sink.h:39-41 | the example in the comment: the index goes before the extension |
| `FileNames.CalcFilenameInjective` | thirdparty/spdlog/include/spdlog/sinks/rotating_file_sink.h:41-55 | different indices give different file names, for every base name |
| `FileNames.SplitOfRotated` | thirdparty/spdlog/include/spdlog/sinks/rotating_file_sink.h:41-55 | a rotated name keeps the extension, or gets the index as its extension |
| `FileNames.SameFolder` | thirdparty/spdlog/include/spdlog/sinks/rotating_file_sink.h:41-55 | rotated files stay in the folder of the log file |
| `RotatingFileSinks.RotatingFileSink.constructor` | thirdparty/spdlog/include/spdlog/sinks/rotating_file_sink.h:30-37 | opens for append: every file found keeps its text, a missing log file becomes empty, nothing else appears; the size is taken |
| `RotatingFileSinks.RotatingFileSink.Rotate` | thirdparty/spdlog/include/spdlog/sinks/rotating_file_sink.h:87-113 | the loop of removes and renames shifts all numbered files by one place (gaps included), drops the last, starts an empty log file, and leaves all other files alone |
| `RotatingFileSinks.RotatingFileSink.SinkIt` | thirdparty/spdlog/include/spdlog/sinks/rotating_file_sink.h:58-69 | a message is appended if it fits and otherwise starts a new file; current_size_ is the size of the log file again |
| `RotatingFileSinks.SplitExactly` | thirdparty/spdlog/include/spdlog/sinks/rotating_file_sink.h:62-67 | the greedy split of the messages into files exists and is the only one: no file is left while the next message fits, none is exceeded except by a message of its own |
| `RotatingFileSinks.RunKeepsNewest` | thirdparty/spdlog/include/spdlog/sinks/rotating_file_sink.h:58-113 | after any run the files on disk are the newest max_files + 1 of the files the greedy split makes from the initial ones |
| `RotatingFileSinks.RunIsKept` | thirdparty/spdlog/include/spdlog/sinks/rotating_file_sink.h:30-113 | in terms of the files found on opening: what is on disk after a run is the newest of their files and the new ones, and their content plus all messages = dropped files followed by those on disk |
| `RotatingFileSinks.RotationHistory` | thirdparty/spdlog/include/spdlog/sinks/rotating_file_sink.h:58-113 | initial content plus all messages = dropped files followed by file max .. file 0: what is left is a suffix, cut between files |
| `RotatingFileSinks.NothingLost` | thirdparty/spdlog/include/spdlog/sinks/rotating_file_sink.h:87-112 | nothing is lost if and only if only empty files were dropped |
| `RotatingFileSinks.EmptyFileRotates` | thirdparty/spdlog/include/spdlog/sinks/rotating_file_sink.h:62-67 | a message larger than max_size sent to an empty log file rotates that empty file |
| `RotatingFileSinks.WrittenFilesFit` | thirdparty/spdlog/include/spdlog/sinks/rotating_file_sink.h:62-68 | every file started in a run holds at most max_size characters or exactly one message; so does the initial log file once something was added to it |
| `RotatingFileSinks.Perform` | thirdparty/spdlog/include/spdlog/sinks/rotating_file_sink.h:30-113 | opening a log and sending it messages: the files found and all messages make up the dropped files followed by those on disk, which are the newest max_files + 1; no other file is touched |
| `LogTime.PaddingIsZeroFill` | thirdparty/spdlog/include/spdlog/details/fmt_helper.h:47-114 | the hand-written digits of pad2, pad3 and pad6 are what {:02}, {:03} and {:06} mean, for every number from 0 up; negative numbers are handed to those format strings by the source, so for them the claim holds by definition |
| `LogTime.TimeSplits` | thirdparty/spdlog/include/spdlog/details/fmt_helper.h:119-126 | the time is its whole seconds plus a remainder of the same sign that is less than a second |
| `LogTime.FractionIs` | thirdparty/spdlog/include/spdlog/details/fmt_helper.h:119-126 | time_fraction is that remainder in its unit, cut towards zero; from the epoch on it is less than the number of units in a second |
| `LogTime.LeadingDigits` | thirdparty/spdlog/include/spdlog/details/fmt_helper.h:71-114 | for n nanoseconds of a second the padded texts are its nine digits and their first six and three |
| `LogTime.NamesAbbreviate` | thirdparty/spdlog/include/spdlog/details/pattern_formatter.h:77-109 | short day and month names begin the full ones, with four letters for September; short levels are initials |
| `PatternFormatting.FractionDigits` | thirdparty/spdlog/include/spdlog/details/pattern_formatter.h:229-257 | from the epoch on %F, %f and %e print the nine, six and three leading digits of the time below the second |
| `PatternFormatting.FlagAlphabet` | thirdparty/spdlog/include/spdlog/details/pattern_formatter.h:589-732 | the flags are exactly the characters of the switch |
| `PatternFormatting.SampleNames` | thirdparty/spdlog/include/spdlog/details/pattern_formatter.h:37-62 | literal output for an example: names and levels |
| `PatternFormatting.SampleDays` | thirdparty/spdlog/include/spdlog/details/pattern_formatter.h:77-116 | literal output for an example: days and months |
| `PatternFormatting.SampleNumbers` | thirdparty/spdlog/include/spdlog/details/pattern_formatter.h:373-398 | literal output for an example: thread and message ids of six digits |
| `PatternFormatting.SampleDate` | thirdparty/spdlog/include/spdlog/details/pattern_formatter.h:144-191 | literal output for an example: parts of the date |
| `PatternFormatting.SampleClock` | thirdparty/spdlog/include/spdlog/details/pattern_formatter.h:193-227 | literal output for an example: parts of the time |
| `PatternFormatting.SampleIntegers` | thirdparty/spdlog/include/spdlog/details/pattern_formatter.h:259-268 | literal output for an example: seconds since the epoch and process id |
| `PatternFormatting.SampleShortTimes` | thirdparty/spdlog/include/spdlog/details/pattern_formatter.h:279-303 | literal output for an example: 12-hour clock and hours with minutes |
| `PatternFormatting.SampleTimes` | thirdparty/spdlog/include/spdlog/details/pattern_formatter.h:305-318 | literal output for an example: the time of day |
| `PatternFormatting.SampleDates` | thirdparty/spdlog/include/spdlog/details/pattern_formatter.h:153-164 | literal output for an example: the short date |
| `PatternFormatting.SampleDateTime` | thirdparty/spdlog/include/spdlog/details/pattern_formatter.h:118-142 | literal output for the example of the comment: Thu Aug 23 15:35:46 2014 |
| `PatternFormatting.SampleZone` | thirdparty/spdlog/include/spdlog/details/pattern_formatter.h:320-357 | literal output for an example: a zone west of Greenwich |
| `PatternFormatting.TwelveHours` | thirdparty/spdlog/include/spdlog/details/pattern_formatter.h:67-75 | the 12-hour clock runs from 1 to 12 except in the hour after midnight, which prints 00 |
| `PatternFormatting.CompilePreserves` | thirdparty/spdlog/include/spdlog/details/pattern_formatter.h:735-770 | the compiled list prints what reading the pattern from left to right prints, for every pattern, message, time and buffer, colour range included |
| `PatternFormatting.PatternFormatter.CompilePattern` | thirdparty/spdlog/include/spdlog/details/pattern_formatter.h:735-770 | the loop with its pending user characters builds exactly this list |
| `PatternFormatting.ReadJoined` | thirdparty/spdlog/include/spdlog/details/pattern_formatter.h:749-756 | reading is compositional between flags, and a percent sign after a complete pattern is dropped |
| `PatternFormatting.UnknownKept` | thirdparty/spdlog/include/spdlog/details/pattern_formatter.h:728-731 | a pattern without known flags prints itself |
| `PatternFormatting.FullPatternText` | thirdparty/spdlog/include/spdlog/details/pattern_formatter.h:459-460 | the pattern compared with is the one in the comment, with the level name coloured |
| `PatternFormatting.FullIsItsPattern` | thirdparty/spdlog/include/spdlog/details/pattern_formatter.h:459-527 | %+ prints what the pattern in its comment prints, with the level name coloured |
| `PatternFormatting.FullColoursLevel` | thirdparty/spdlog/include/spdlog/details/pattern_formatter.h:515-520 | the range %+ marks is the level name |
| `PatternFormatting.HourMinuteIs` | thirdparty/spdlog/include/spdlog/details/pattern_formatter.h:294-303 | %R is %H:%M |
| `PatternFormatting.Clock24Is` | thirdparty/spdlog/include/spdlog/details/pattern_formatter.h:305-318 | %T is %H:%M:%S |
| `PatternFormatting.ShortDateIs` | thirdparty/spdlog/include/spdlog/details/pattern_formatter.h:153-164 | %D is %m/%d/%C |
| `PatternFormatting.PatternFormatter.FormatFull` | thirdparty/spdlog/include/spdlog/details/pattern_formatter.h:463-497 | the cached date of %+ never shows: with a cache left by an earlier message the formatter prints what it prints without one |
| `PatternFormatting.PatternFormatter.ShowFormatters` | thirdparty/spdlog/include/spdlog/details/pattern_formatter.h:564-567 | the loop over the formatters prints what they print without caches and leaves every cache current |
| `PatternFormatting.PatternFormatter.Format` | thirdparty/spdlog/include/spdlog/details/pattern_formatter.h:553-570 | one message: the output is the direct reading with the time of the cache, which the clock renews exactly when the second changes, and the line end |
| `PatternFormatting.CacheInvisible` | thirdparty/spdlog/include/spdlog/details/pattern_formatter.h:553-562 | for every clock and every run, each message is printed with the time of its own second if and only if the run is empty, does not begin in second 0, or the zeroed structure is the right time |
| `PatternFormatting.SecondZero` | thirdparty/spdlog/include/spdlog/details/pattern_formatter.h:537-543 | the counterexample: a run beginning in second 0 prints the year 1900 where the clock says 1970 |
| `PatternFormatting.FormatRun` | thirdparty/spdlog/include/spdlog/details/pattern_formatter.h:531-570 | a formatter run over any messages prints them as recomputing each time would, under that condition |
| `Uuid.HexByPlace` | src/uuid.cpp:8-19 | the accepted characters are those of 0-9, a-f and A-F written out, and the value is the place there |
| `Uuid.ToChar` | src/uuid.cpp:8-19 | a character of the two written-out alphabets gives its place; anything else is an error |
| `Uuid.ByteByPlaces` | src/uuid.cpp:21-23 | a pair of digits denotes sixteen times the place of the first plus the place of the second, and a byte prints as the characters at these places |
| `Uuid.MakeHex` | src/uuid.cpp:21-23 | two digits make a byte |
| `Uuid.ScanCounts` | src/uuid.cpp:39-45 | two characters per byte: 2 * bytes + dashes = length, which bounds the byte index by 16 on any 36-character text |
| `Uuid.ParseUuidString` | src/uuid.cpp:25-47 | the loop over two indices ends on every text, stays inside both arrays and computes the parse |
| `Uuid.AcceptedExactly` | src/uuid.cpp:25-47 | accepted are exactly the 36-character texts with the four dashes in place that otherwise consist of hexadecimal pairs and further dashes |
| `Uuid.PrintShape` | src/uuid.cpp:81-103 | printed text is 8-4-4-4-12 with no other dash |
| `Uuid.PrintAt` | src/uuid.cpp:81-103 | the printed form place by place: each byte is two characters of 0123456789abcdef at its place in the 8-4-4-4-12 form |
| `Uuid.ParseAt` | src/uuid.cpp:25-47 | the bytes read from an 8-4-4-4-12 text, place by place, in either case |
| `Uuid.ParseOfPrint` | src/uuid.cpp:25-103 | parsing the printed form of any 16 bytes gives them back |
| `Uuid.PrintOfParse` | src/uuid.cpp:25-103 | printing what was parsed gives the text in lower case if and only if it has no dash besides the four |
| `Uuid.OnlyDashes` | src/uuid.cpp:39-42 | the counterexample: 36 dashes are accepted and print differently |

## Left out

- librapid's networking layer (acceptor, connector, channel, poller, event loop, TCP classes): system calls and callbacks.
- Floating-point printing, `get_cached_power` and the Grisu path; of `fp` only the multiplication is modelled.
- The overload of `format_decimal` for iterators that goes through a temporary buffer.
- MinGW, Windows, wide-character and locale branches; consoles, syslog, Android sinks, daily rotation.
- Clocks and time zones: local time is an arbitrary function of the second; the process id is a parameter.
- Failing `remove`, `rename`, `open` and `write`, with their retries and exceptions; the FILE handle itself.
- Overflow of `std::size_t` sizes, of `current_size_`, of the overrun counter, of `next_arg_id_` and of `tm_year + 1900`.
- The width of exponents in `fp`.
- `FormatString.ParseFormatString`: which error is reported is not modelled for whole format strings, only that there is one; error messages of specifications are modelled.
- Checks of specifications against the argument type (`specs_checker`), look-up of named arguments, the presence of the argument an id refers to, and rendering of arguments into fields.
- `uuid::fromString` takes `str.data()`, so a view that is not terminated or holds a NUL is read differently; the model starts at the `std::string`.
- Moving and deallocating buffers, allocators, and exceptions thrown by element copies.
- `PackedArgs.FieldFourteen`: the word holds a count of up to 2^63; the count is that of a parameter pack, so lists near 2^32 or 2^56 arguments do not occur.
- `DecimalWriting.OnNum`: prefix, fill and alignment around the digits (`write_int`) are not modelled.
- `AsyncPool`: the mutex and condition variables are atomic steps of a transition system on values, not a class; a posting attempt after the pool is gone, which throws, is the absence of a step; flushing a sink changes nothing the model records; a sink does not throw.
- The constructor of the pool refuses 0 and more than 1000 threads; this is part of the initial states only.
- `Clock12` (%r) and `DateTime` (%c) are printed as in the source, but not compared with longer patterns.
- `FormatFull`: the compile-time switches that remove date or logger name from %+ are off, as in the shipped configuration.
