# A Dafny model of node infrastructure, zedstore visibility and unique keys

This project models the core of a PostgreSQL development tree in Dafny and
proves properties of the model. It covers six parts of that tree.

- **The generic node functions.** Nodes are serialized to text
  (`nodeToStringNew`), read back (`stringToNodeNew`), copied and compared.
  All four walk the generated type tables of `nodeinfo.h`:
  - the node-type table;
  - the struct-field table, whose rows hold each field's behaviour flags and known-type category;
  - the enum table;
  - the interned string table.

  A node is an algebraic value: a type id plus one value per field of its
  type's slice of the field table. Lists are three sequence variants, and
  the bitmap set is a `set<nat>`. The writer is a class whose one field is
  the text written so far, an unbounded string that stands in for the
  `StringInfo` of `nodeToString`. The reader is a class over the input
  cursor. Each has a pure
  specification function, and the methods are proved equal to it. Round-trip
  lemmas tie the writer's text to the tokenizer and to the unescaping
  routine.
- **The growable containers.** These are `pgarr`, the inline or out-of-line
  array with its doubling growth rule, and `StringInfo`, the NUL-terminated
  text buffer. Both are classes over Dafny arrays. Every mutator states the
  new contents and keeps the size/capacity invariant.
- **Integer and decimal conversion.**
  - The `pg_*tostr_nn` digit writers, including the in-place reversal and the zero-padded form.
  - The NUL-terminating wrappers and their `MAXINT*LEN` bounds.
  - `pg_strtoint16` and `pg_strtoint32`, with their negative accumulation and overflow checks.
  - The checks `pg_atoi` makes after calling `strtol`.
  - `pg_str_endswith`, `pg_clean_ascii` and `pg_strip_crlf`.
- **The node-metadata generator's decision logic.** This covers the
  string-intern table, the flag buffer and the per-struct and per-field
  override rules that decide the flags of each field.
- **Zedstore tuple visibility.** This covers the lock-compatibility table
  and `xid_is_visible`. It also covers the undo-chain walkers behind every
  snapshot kind. The transaction manager and the undo log are parameters:
  an `Env` that holds the log as a map whose chains strictly descend, the
  transaction status sets, the snapshot and the refreshed oldest counter.
- **Planner unique keys.** This covers containment and usefulness of unique
  keys, and the bookkeeping that appends to `unique_exprs` and
  `uniquekeys`. The planner's own callbacks are parameters.

Several behaviours of the C code are kept exactly as written:
- `flags & (A || B)` is `flags & 1`;
- the array comparison compares the first array with itself, so arrays compare by size only;
- `MAXINT64LEN` is 13, because `CppAsString` does not expand its argument;
- the node reader accepts a type name that is a prefix of the registered name (`strncmp` with the token length);
- `pgarr_copy` onto itself empties the array.

Where a contract states the corrected behaviour instead, the `## Findings`
table pairs it with the member that models the code as written.

## Model

| member | source | states |
|---|---|---|
| NodeInfo.FlagsAreDistinctBits | src/include/nodes/nodeinfo.h:5-13 | the nine TYPE_* flags are bits 0 to 8: each is a single bit and no two overlap |
| NodeInfo.ScalarOrForceScalarIsCatScalar | src/backend/nodes/copyfuncs_new.c:258-259 | the mask written as the logical or of TYPE_COPY_FORCE_SCALAR and TYPE_CAT_SCALAR is the truth value 1, which is TYPE_CAT_SCALAR alone; a field flagged only TYPE_COPY_FORCE_SCALAR fails the test |
| NodeInfo.SentinelsAreUInt16Max | src/include/nodes/nodeinfo.h:15-16 | TYPE_ID_UNKNOWN and TYPE_SIZE_UNKNOWN are both 0xFFFF, the largest uint16 |
| NodeTokens.SkipBlanks | src/backend/nodes/readfuncs_new.c:148-149 | the blank skip stops inside the C string, on a character that is not a space, newline or tab |
| NodeTokens.SkippedBlanks | src/backend/nodes/readfuncs_new.c:148-149 | every position the skip passes over holds a blank |
| NodeTokens.WordEnd | src/backend/nodes/readfuncs_new.c:172-182 | a normal token ends inside the C string on a delimiter (NUL, blank or bracket), and is not empty when it starts on a non-delimiter |
| NodeTokens.Strtok | src/backend/nodes/readfuncs_new.c:142-194 | the new cursor stays inside the C string at or after the old one, and a token lies between the two |
| NodeTokens.StrtokFacts | src/backend/nodes/readfuncs_new.c:148-191 | NULL exactly at the end of input after blanks; otherwise the token starts at the first non-blank, a bracket is a one-character token, any other token runs to WordEnd, and the length is 0 exactly for `<>` |
| NodeTokens.Unescape | src/backend/nodes/readfuncs_new.c:734-749 | nodein_debackslash's output is never longer than the token |
| NodeTokens.UnescapeStep | src/backend/nodes/readfuncs_new.c:740-746 | one loop turn: a backslash with a character after it emits that character and consumes two, anything else emits itself and consumes one |
| NodeValues.SetTag | src/backend/nodes/copyfuncs_new.c:85 | `dst->type = tag` keeps every field after the tag word and makes the tag read as `tag` |
| NodeValues.SetTagIdentity | src/backend/nodes/copyfuncs_new.c:85 | storing the tag a node already has changes nothing |
| NodeValues.NewNode | src/backend/nodes/copyfuncs_new.c:84-85 | palloc0 plus the tag store gives one value per field of the type, with the tag word reading `tag` |
| CInt.DoubledMeaning | src/include/lib/pgarr.h:251-253 | the doubling loop ends on the first power-of-two multiple of the start value that reaches the target: at least the target and the start, and the previous doubling was still below the target |
| PgArrs.GrowthCapacity | src/include/lib/pgarr.h:243-260 | the growth rule aborts exactly when add is at least UINT32_MAX or size+add exceeds UINT32_MAX, and a computed capacity never exceeds UINT32_MAX; that it holds size+add is PgArrs.GrowthCapacityMeaning |
| PgArrs.GrowthCapacityMeaning | src/include/lib/pgarr.h:228-263 | growth aborts exactly when add is at least UINT32_MAX or size+add exceeds UINT32_MAX; otherwise the new capacity holds size+add, stays within uint32 and, unless clamped to UINT32_MAX, is max(2*size, 8) times a power of two |
| PgArrs.GrowthReachesAssertedLimit | src/common/pgarr.c:13 | growing an array of 2^31 elements by one yields the capacity UINT32_MAX, which violates the assertion newcapacity < UINT32_MAX in pgarr_realloc |
| PgArrs.GrowthLeavesSpareSlot | src/include/lib/pgarr.h:265-275 | after growing by one there is a free slot beyond the new element exactly when size+1 < UINT32_MAX, which is when the assertion after pgarr_helper_append holds |
| PgArrs.PgArr.Zeroed | src/include/lib/pgarr.h:71-86 | a zero-initialized header has no storage, capacity 0 and no elements |
| PgArrs.PgArr.IsEmpty | src/include/lib/pgarr.h:85-86 | pgarr_empty holds exactly when no element is in use |
| PgArrs.ArrSize | src/include/lib/pgarr.h:71-80 | the size of a NULL array is 0, otherwise the header's size |
| PgArrs.PgArr.AllocInline | src/include/lib/pgarr.h:102-116 | a fresh inline array is empty, with the requested capacity and its elements in the header's allocation |
| PgArrs.PgArr.AllocOutline | src/include/lib/pgarr.h:118-134 | a fresh out-of-line array is empty, with the requested capacity and a separate element buffer |
| PgArrs.PgArr.Alloc | src/include/lib/pgarr.h:136-146 | a fresh array is empty with the requested capacity, and is inline exactly when header plus elements take at most 128 bytes |
| PgArrs.PgArr.Realloc | src/common/pgarr.c:6-36 | corrected pgarr_realloc: capacity becomes newcapacity, size is cut to it, the kept elements are preserved and the storage is a separate buffer of newcapacity slots |
| PgArrs.PgArr.ReallocAsWritten | src/common/pgarr.c:6-36 | pgarr_realloc as written: capacity and size are updated, but an inline array keeps its old storage, so growing it breaks the capacity-equals-storage invariant |
| PgArrs.PgArr.ReserveRealloc | src/include/lib/pgarr.h:228-263 | aborts, changing nothing, exactly when the growth rule aborts; otherwise capacity is the growth rule's value, it holds size+add and the elements are kept |
| PgArrs.PgArr.Reserve | src/include/lib/pgarr.h:277-286 | reallocates only when size+add exceeds the capacity (otherwise nothing changes); afterwards size+add fits and the elements are kept |
| PgArrs.PgArr.AppendAsWritten | src/include/lib/pgarr.h:265-275 | pgarr_helper_append as written: at size UINT32_MAX the uint32 sum size+1 wraps to 0, so the reserve check passes and the store is out of bounds; otherwise the element is appended |
| PgArrs.PgArr.Append | src/include/lib/pgarr.h:300-310 | corrected pgarr_append: aborts, changing nothing, exactly at size UINT32_MAX; otherwise the element is stored at the old size and the size grows by one, without reallocating when there was room |
| PgArrs.PgArr.AppendReserved | src/include/lib/pgarr.h:319-329 | with room reserved, the element is appended in place, keeping storage and capacity |
| PgArrs.PgArr.Clone | src/include/lib/pgarr.h:332-351 | a clone is a fresh array with the same elements, capacity equal to the source's size, and inline placement chosen by that size |
| PgArrs.PgArr.SetAll | src/include/lib/pgarr.h:364-374 | unless growth aborts, size becomes n and every element equals the fill value |
| PgArrs.PgArr.CopyFrom | src/include/lib/pgarr.h:377-393 | unless growth aborts, the destination's elements equal the source's; copying an array onto itself empties it, because its size is reset before the copy |
| StringInfos.EnlargedSize | src/common/stringinfo.c:265-275 | the new buffer size never exceeds MaxAllocSize; that it holds the request and never shrinks is StringInfos.EnlargedSizeFits |
| StringInfos.EnlargedSizeFits | src/common/stringinfo.c:268-275 | the doubled and clamped buffer size exceeds len+needed, does not pass MaxAllocSize and never shrinks |
| StringInfos.EnlargeDecision | src/include/lib/stringinfo.h:116-124 | the slow path is skipped exactly when len+datalen < maxlen, and it rejects exactly when datalen >= MaxAllocSize - len |
| StringInfos.StringInfo.Init | src/common/stringinfo.c:59-67 | a fresh buffer of 1024 bytes, empty, terminated and with cursor 0 |
| StringInfos.StringInfo.Reset | src/common/stringinfo.c:75-81 | keeps the buffer and maxlen, empties the contents, writes the NUL at position 0, zeroes cursor and touches no other byte |
| StringInfos.StringInfo.EnlargeImpl | src/common/stringinfo.c:220-280 | a negative request aborts and one at or above MaxAllocSize - len is out of memory, changing nothing; otherwise the buffer is reallocated to the doubled-and-clamped size, which exceeds len+needed, keeping the old bytes |
| StringInfos.StringInfo.Enlarge | src/include/lib/stringinfo.h:116-124 | fails, changing nothing, exactly when datalen >= MaxAllocSize - len; otherwise nothing changes when there is room and else the slow path's size is taken; afterwards len+datalen < maxlen |
| StringInfos.StringInfo.AppendBinary | src/include/lib/stringinfo.h:131-149 | the contents grow by exactly the given bytes and stay NUL-terminated; failure changes nothing |
| StringInfos.StringInfo.AppendBinaryNT | src/common/stringinfo.c:196-207 | the contents grow by exactly the given bytes, with no terminator promised |
| StringInfos.StringInfo.AppendString | src/include/lib/stringinfo.h:184-188 | appends the string up to its first NUL, as appendBinaryStringInfo with strlen |
| StringInfos.StringInfo.AppendChar | src/include/lib/stringinfo.h:195-205 | appends one character and keeps the NUL |
| StringInfos.StringInfo.AppendSpaces | src/common/stringinfo.c:175-188 | a positive count appends exactly that many spaces and re-terminates; a count of zero or less changes nothing |
| StringInfos.StringInfo.AppendInt32 | src/include/lib/stringinfo.h:216-227 | appends the decimal text of the int32 value and keeps the NUL; failure only when MAXINT32LEN more bytes cannot be had |
| StringInfos.StringInfo.AppendUInt32 | src/include/lib/stringinfo.h:242-253 | appends the decimal text of the uint32 value and keeps the NUL |
| StringInfos.StringInfo.AppendInt64AsWritten | src/include/lib/stringinfo.h:229-240 | as written, the buffer is enlarged by MAXINT64LEN = 13 bytes only, so writing a 20-character value can run past maxlen; the overrun is reported as undefined behaviour |
| StringInfos.StringInfo.AppendInt64 | src/include/lib/stringinfo.h:229-240 | corrected appendStringInfoInt64, reserving 21 bytes: appends the decimal text of the int64 value and keeps the NUL |
| StringInfos.StringInfo.AppendUInt64AsWritten | src/include/lib/stringinfo.h:255-266 | as written, with the same 13-byte reservation, a 20-digit value can overrun the buffer |
| StringInfos.StringInfo.AppendUInt64 | src/include/lib/stringinfo.h:255-266 | corrected appendStringInfoUInt64: appends the decimal text of the uint64 value and keeps the NUL |
| StringInfos.AppendInt64Overrun | src/include/common/string.h:21 | MAXINT64LEN is 13; with len 1010 in a 1024-byte buffer no enlargement happens, yet INT64_MIN and UINT64_MAX do not fit |
| StringInfos.AppendInt64Fits | src/include/common/string.h:19-21 | with 21 bytes of room, the decimal text of every int64 and uint64 value fits before maxlen |
| PgString.DigitsRoundTrip | src/common/string.c:204-237 | the digits written for n are all decimal digits and read back as n |
| PgString.DigitsNoLeadingZero | src/common/string.c:204-237 | the written digits start with '0' only for zero, so the digit string is minimal |
| PgString.DecimalParts | src/common/string.c:142-201 | the decimal text is never empty, starts with '-' exactly for negative values, and after the sign holds the digits of the magnitude |
| PgString.DecimalChars | src/common/string.c:142-201 | every character of the decimal text is a digit, except a leading '-' |
| PgString.DecimalInjective | src/common/string.c:142-201 | two values with the same decimal text are equal |
| PgString.DigitsLength | src/common/string.c:204-237 | n has at most k digits exactly when n < 10^k |
| PgString.DecimalLengthBounds | src/include/common/string.h:19-21 | int32 text takes at most 11 characters, uint32 at most 10, int64 and uint64 at most 20 |
| PgString.WidestDecimals | src/include/common/string.h:19-21 | INT64_MIN and UINT64_MAX take exactly 20 characters and INT32_MIN exactly 11 |
| PgString.RevDigitsReversed | src/common/string.c:188-198 | reversing the digits emitted least significant first gives the digits in reading order |
| PgString.ReverseRange | src/common/string.c:188-198 | the swap loop reverses the slice in place and leaves the rest of the buffer alone |
| PgString.WriteRevDigits | src/common/string.c:152-186 | the division loop (dividing the value, negative or not, truncating toward zero) writes the magnitude's digits least significant first and returns the position after them |
| PgString.Int32ToStrNN | src/common/string.c:142-201 | writes exactly the decimal text of the int32 value, INT32_MIN included, returns the end position and writes no NUL |
| PgString.Int16ToStrNN | src/common/string.c:117-122 | writes the decimal text of the widened int16 value, as pg_int32tostr_nn does |
| PgString.UInt32ToStrNN | src/common/string.c:204-237 | writes exactly the minimal decimal digits of the uint32 value |
| PgString.Int64ToStrNN | src/common/string.c:240-299 | writes exactly the decimal text of the int64 value, INT64_MIN included |
| PgString.UInt64ToStrNN | src/common/string.c:302-335 | writes exactly the minimal decimal digits of the uint64 value |
| PgString.Int16ToStr | src/include/common/string.h:38-46 | writes the decimal text followed by a NUL and returns the position of that NUL |
| PgString.Int32ToStr | src/include/common/string.h:48-56 | writes the decimal text followed by a NUL and returns the position of that NUL |
| PgString.Int64ToStr | src/include/common/string.h:58-66 | writes the decimal text followed by a NUL and returns the position of that NUL |
| PgString.UInt32ToStr | src/include/common/string.h:86-94 | writes the decimal digits followed by a NUL and returns the position of that NUL |
| PgString.UInt64ToStr | src/include/common/string.h:96-104 | writes the decimal digits followed by a NUL and returns the position of that NUL |
| PgString.DropDigitsZero | src/common/string.c:359-416 | after writing the last k digits the remaining value is zero exactly when the number had at most k digits |
| PgString.LastDigitsPadded | src/common/string.c:359-416 | when the number fits in k digits, its last k digits are zeros followed by its digits |
| PgString.ZeroPaddedFits | src/common/string.c:359-416 | when the value fits in minwidth characters, the result is the sign, then zeros, then the digits, exactly minwidth long |
| PgString.ZeroPaddedOverflows | src/common/string.c:359-416 | when the value does not fit, the result is the plain pg_int32tostr_nn text |
| PgString.ZeroPaddedMeaning | src/common/string.c:359-416 | the padded text has length max(minwidth, the plain length), starts with the sign, and its remaining characters are digits whose value is the magnitude |
| PgString.FillPadded | src/common/string.c:382-403 | the fill loop writes the last width digits of the magnitude, zero padded, and returns what is left of the value |
| PgString.SignAndFill | src/common/string.c:359-404 | writes the sign and fills exactly minwidth characters; when nothing of the value is left over the text is the zero-padded form |
| PgString.Int32ToStrNNZeroPad | src/common/string.c:359-416 | writes the zero-padded text: minwidth characters when the value fits, otherwise the plain decimal text, and returns the end position |
| PgString.StrEndsWith | src/common/string.c:30-43 | true exactly when end is no longer than str and the last characters of str equal end |
| PgString.CleanChar | src/common/string.c:81-92 | the cleaned character is printable ASCII; printable ones are kept and any other becomes '?' |
| PgString.Cleaned | src/common/string.c:81-92 | the cleaned string has the same length and is cleaned character by character |
| PgString.CleanedIdempotent | src/common/string.c:81-92 | cleaning twice is cleaning once |
| PgString.CleanAscii | src/common/string.c:81-92 | rewrites the string up to its NUL in place with its cleaned form and touches nothing after it |
| PgString.StripCrLf | src/common/string.c:104-114 | returns the new length, having overwritten with NULs exactly the trailing run of newlines and carriage returns, keeping everything before it |
| NumUtils.SkipSpaces | src/backend/utils/adt/numutils.c:131-132 | the skip stops, within the string, on a non-space character |
| NumUtils.DigitRun | src/backend/utils/adt/numutils.c:148-155 | the digit scan stops, within the string, on a non-digit |
| NumUtils.StrToIntSpec | src/backend/utils/adt/numutils.c:123-187 | an accepted value lies in the type's range |
| NumUtils.FinishInRange | src/backend/utils/adt/numutils.c:157-172 | with only trailing spaces left, the signed magnitude is returned when in range and otherwise it is an out-of-range error |
| NumUtils.StrToInt | src/backend/utils/adt/numutils.c:123-187 | the loop with its negative accumulator and overflow checks computes exactly the reference result |
| NumUtils.StrToInt16 | src/backend/utils/adt/numutils.c:123-187 | pg_strtoint16 is the reference parse with range [-32768, 32767] |
| NumUtils.StrToInt32 | src/backend/utils/adt/numutils.c:199-263 | pg_strtoint32 is the reference parse with range [-2147483648, 2147483647] |
| NumUtils.StrToIntInRange | src/backend/utils/adt/numutils.c:157-171 | a parse that succeeds yields a value within range |
| NumUtils.StrToIntAccepts | src/backend/utils/adt/numutils.c:123-187 | spaces, an optional sign, digits, spaces and a NUL parse to the signed value of the digits when in range and are out of range otherwise |
| NumUtils.StrToIntRoundTrip | src/backend/utils/adt/numutils.c:199-263 | parsing the decimal text of v gives v when in range and an out-of-range error otherwise |
| NumUtils.StrToIntLimits | src/backend/utils/adt/numutils.c:164-171 | -2147483648 and -32768 are accepted, 2147483648 and 32768 are out of range |
| NumUtils.StrToIntRejects | src/backend/utils/adt/numutils.c:143-162 | no digit after the optional sign, or anything but spaces after the digits, is invalid syntax |
| NumUtils.StrtolDecimal | src/backend/utils/adt/numutils.c:57 | strtol, strtoul and atoi read the decimal text of a value back as that value and stop right after it |
| NumUtils.Atoi | src/backend/utils/adt/numutils.c:38-111 | the checks after strtol compute the reference result |
| NumUtils.AtoiMeaning | src/backend/utils/adt/numutils.c:38-111 | pg_atoi succeeds exactly on a non-NULL non-empty string where strtol consumed something without range error, the value fits size 4, 2 or 1, and only whitespace comes before the NUL or the terminator; the result is strtol's value |
| NumUtils.AtoiRoundTrip | src/backend/utils/adt/numutils.c:38-111 | the decimal text of an in-range value, spaces and the terminator parse back to the value |
| NumUtils.AtoiOnText | src/backend/utils/adt/numutils.c:38-111 | a buffer starting with the decimal text of v, then spaces, then the terminator, parses to v |
| NumUtils.AtoiAcceptsAt | src/backend/utils/adt/numutils.c:38-111 | once strtol has read v and only spaces precede the NUL or terminator, pg_atoi returns v |
| CopyFuncs.CopyNode | src/backend/nodes/copyfuncs_new.c:62-63 | copying NULL gives NULL |
| CopyFuncs.CopyList | src/backend/nodes/copyfuncs_new.c:285-311 | an integer or OID list is copied verbatim; a node list's copy is a node list with exactly as many cells |
| CopyFuncs.CopyCells | src/backend/nodes/copyfuncs_new.c:297-299 | the copied cells are as many as the source cells from that index on |
| CopyFuncs.CopyFieldsFrom | src/backend/nodes/copyfuncs_new.c:92-105 | the field loop yields one value per field of the type |
| CopyFuncs.EmbeddedTarget | src/backend/nodes/copyfuncs_new.c:155-181 | an embedded struct at offset 0 is copied in place under the declared type; elsewhere its own tag must name a type of the declared size (else an error) and it is copied into zeroed memory of that type |
| CopyFuncs.CopyDatum | src/backend/nodes/copyfuncs_new.c:191-204 | the copied Const value is the source value, whether by value, NULL or duplicated with datumCopy |
| CopyFuncs.CopyUnion | src/backend/nodes/copyfuncs_new.c:316-349 | a Value union other than Null is copied to a union (Integer by ival, strings duplicated, NULL staying NULL) |
| CopyFuncs.CopyScalar | src/backend/nodes/copyfuncs_new.c:257-270 | the default case copies the field verbatim exactly when the test against the or-ed mask passes, which is TYPE_CAT_SCALAR alone, and is an error otherwise |
| CopyFuncs.CopyNodeRec | src/backend/nodes/copyfuncs_new.c:55-90 | nodecopy_new_rec computes the copy specification: NULL to NULL, lists through the list copy, other nodes into a fresh zeroed node of the registered type with the tag set |
| CopyFuncs.CopyListRec | src/backend/nodes/copyfuncs_new.c:275-314 | the cell loop of nodecopy_list computes the list copy specification |
| CopyFuncs.CopyFieldsLoop | src/backend/nodes/copyfuncs_new.c:92-273 | the loop over the field table computes the field copy specification, skipping COPY_IGNORE fields |
| CopyFuncs.CopyValueRec | src/backend/nodes/copyfuncs_new.c:110-270 | one turn of the field switch computes the copy of that field |
| CopyFuncs.CopyEmbeddedRec | src/backend/nodes/copyfuncs_new.c:155-189 | the embedded-struct case computes its specification |
| CopyFuncs.IgnoredFieldsKeepDestination | src/backend/nodes/copyfuncs_new.c:104-105 | COPY_IGNORE fields, and fields already passed, keep what the destination held |
| CopyFuncs.IgnoredFieldsAreZero | src/backend/nodes/copyfuncs_new.c:84-105 | in a successful copy every COPY_IGNORE field holds the zeroed node's value |
| CopyFuncs.CopyIsExact | src/backend/nodes/copyfuncs_new.c:55-349 | on tables where every field is COPY_IGNORE, a kind the switch handles or TYPE_CAT_SCALAR (no field takes the error branch), the copy of every well-formed node is its image: equal to the node field by field at every depth, except that each COPY_IGNORE field holds the zeroed new node's value |
| CopyFuncs.CopyComparesEqual | src/backend/nodes/copyfuncs_new.c:55-90 | on tables where every COPY_IGNORE field is also EQUAL_IGNORE and is not the leading tag word (as for RestrictInfo's scansel_cache), the copy of a well-formed node compares equal to it under nodes_equal's deep comparison, without the identity short cut |
| CopyFuncs.ImageComparesEqual | src/backend/nodes/equalfuncs_new.c:74-116 | a well-formed node compares equal to its image, at every depth, when the fields the image zeroes are not compared |
| CopyFuncs.ImageFieldsMatch | src/backend/nodes/equalfuncs_new.c:131-144 | the field loop finds a conforming struct's image equal to the struct |
| CopyFuncs.ImageTagWord | src/backend/nodes/copyfuncs_new.c:84-86 | the image of a struct keeps its tag word, so the copy compares under the same type |
| EqualFuncs.EqualShortCuts | src/backend/nodes/equalfuncs_new.c:74-90 | identical references are equal, exactly one NULL is unequal, and different tags are unequal |
| EqualFuncs.EqualList | src/backend/nodes/equalfuncs_new.c:331-376 | integer and OID lists are equal exactly when their elements are; node lists of different lengths are unequal |
| EqualFuncs.EqualDatum | src/backend/nodes/equalfuncs_new.c:186-210 | two NULL constants are equal whatever their datum words hold |
| EqualFuncs.EqualOpFuncId | src/backend/nodes/equalfuncs_new.c:224-241 | opfuncid fields are equal exactly when they agree or either is 0 |
| EqualFuncs.EqualArrays | src/backend/nodes/equalfuncs_new.c:242-273 | array fields compare only by size, NULL counting as empty, because the memcmp compares the first array with itself |
| EqualFuncs.EqualBitmaps | src/backend/nodes/equalfuncs_new.c:274-285 | bitmap sets are equal exactly when they have the same members, NULL being empty |
| EqualFuncs.EqualStrings | src/backend/nodes/equalfuncs_new.c:298-308 | two non-NULL strings are equal exactly when strcmp finds them equal, that is up to their first NUL; in general two string fields are equal exactly when both are NULL or both are set and equal as C strings |
| EqualFuncs.EqualScalar | src/backend/nodes/equalfuncs_new.c:310-326 | the default case succeeds exactly when the or-ed mask test (TYPE_CAT_SCALAR) passes and then compares the bytes |
| EqualFuncs.EqualUnion | src/backend/nodes/equalfuncs_new.c:378-409 | Null values are always equal and Integer values compare ival; for Float, String and BitString identical values are equal, exactly one NULL string is unequal, and two set strings compare as strcmp does; any other tag is the unreachable error; the result is true exactly when the unions agree under the tag |
| EqualFuncs.AgreeingFieldsAreEqual | src/backend/nodes/equalfuncs_new.c:131-329 | two well-formed structs that agree on every field not flagged EQUAL_IGNORE compare equal field by field |
| EqualFuncs.EqualContentsReflexive | src/backend/nodes/equalfuncs_new.c:74-116 | a well-formed node equals itself even without the identity short cut, so value identity can stand in for pointer identity |
| EqualFuncs.IgnoredFieldsDoNotMatter | src/backend/nodes/equalfuncs_new.c:143-144 | nodes that differ only in EQUAL_IGNORE fields are equal |
| EqualFuncs.StructsCompareByFields | src/backend/nodes/equalfuncs_new.c:92-116 | two different structs with the same tag compare through the field loop |
| EqualFuncs.ScalarDifferenceIsUnequal | src/backend/nodes/equalfuncs_new.c:310-326 | the first compared plain field that differs, after agreeing fields, makes the nodes unequal |
| EqualFuncs.ListsOfDifferentLengthsAreUnequal | src/backend/nodes/equalfuncs_new.c:341-342 | node lists of different lengths are unequal whatever their cells |
| EqualFuncs.Equal | src/backend/nodes/equalfuncs_new.c:74-90 | identical references (NULL included) compare equal and exactly one NULL compares unequal, before any content is looked at |
| EqualFuncs.EqualContents | src/backend/nodes/equalfuncs_new.c:83-116 | past the identity test, a NULL side is unequal and nodes whose tags differ are unequal; lists go to the list compare, structs to the field loop |
| EqualFuncs.EqualCells | src/backend/nodes/equalfuncs_new.c:346-352 | the cell loop of a node list succeeds exactly when every pair of cells from that index on compares equal |
| EqualFuncs.EqualFields | src/backend/nodes/equalfuncs_new.c:131-329 | the field loop succeeds exactly when both structs have one value per field of the type and every field not flagged EQUAL_IGNORE compares equal by its kind |
| EqualFuncs.EqualFieldsFrom | src/backend/nodes/equalfuncs_new.c:136-144 | the loop from field i on succeeds exactly when every later field not flagged EQUAL_IGNORE compares equal |
| EqualFuncs.EqualField | src/backend/nodes/equalfuncs_new.c:149-325 | a field of no special kind succeeds exactly when the or-ed mask test (TYPE_CAT_SCALAR) passes and is equal exactly when the two values are identical; a node pointer field compares as the deep comparison of its targets |
| EqualFuncs.EqualEmbedded | src/backend/nodes/equalfuncs_new.c:151-184 | an embedded struct at offset 0 compares its fields under the declared type; elsewhere differing tags make the structs unequal |
| EqualFuncs.EqualValueField | src/backend/nodes/equalfuncs_new.c:211-222 | a Value union field is equal exactly when both sides hold a union and the unions agree under the node's own tag |
| EqualFuncs.EqualNodePtrs | src/backend/nodes/equalfuncs_new.c:286-296 | two node pointer fields compare as the deep comparison of the nodes they point to, NULL and identical pointers included |
| EqualFuncs.FieldAgreesIffEqual | src/backend/nodes/equalfuncs_new.c:149-325 | a field compares equal exactly when the two values agree in that kind's sense: embedded structs field by field, NULL constants always, opfuncid 0 as a wildcard, arrays by size, bitmap sets by members, node pointers deeply, strings as C strings, other scalars identically |
| EqualFuncs.EmbeddedAgreesIffEqual | src/backend/nodes/equalfuncs_new.c:151-184 | an embedded struct field compares equal exactly when the tags agree (away from offset 0) and its fields match under the struct's type |
| EqualFuncs.DatumAgreesIffEqual | src/backend/nodes/equalfuncs_new.c:186-209 | a Const value compares equal exactly when both constants are NULL or both hold the same datum bytes |
| EqualFuncs.UnionAgreesIffEqual | src/backend/nodes/equalfuncs_new.c:211-222 | a Value union field compares equal exactly when the unions agree under the node's tag |
| EqualFuncs.OpFuncIdAgreesIffEqual | src/backend/nodes/equalfuncs_new.c:224-240 | an opfuncid compares equal exactly when the two agree or either is 0 |
| EqualFuncs.ArrayAgreesIffEqual | src/backend/nodes/equalfuncs_new.c:242-272 | an array field compares equal exactly when both arrays have the same size, NULL counting as empty |
| EqualFuncs.BitmapAgreesIffEqual | src/backend/nodes/equalfuncs_new.c:274-284 | a bitmap set field compares equal exactly when both sets have the same members |
| EqualFuncs.NodePtrAgreesIffEqual | src/backend/nodes/equalfuncs_new.c:286-296 | a node pointer field compares equal exactly when the pointed-to nodes compare equal |
| EqualFuncs.StringAgreesIffEqual | src/backend/nodes/equalfuncs_new.c:298-308 | a string field compares equal exactly when both are NULL or both are non-NULL and strcmp finds them equal |
| EqualFuncs.ScalarAgreesIffEqual | src/backend/nodes/equalfuncs_new.c:310-324 | a plain field compares equal exactly when the mask test passes and the two values are identical |
| EqualFuncs.EqualFieldsIffMatch | src/backend/nodes/equalfuncs_new.c:131-329 | the field loop returns true exactly when the two structs match field by field outside EQUAL_IGNORE, each field agreeing in its kind's sense |
| EqualFuncs.EqualStructsIffMatch | src/backend/nodes/equalfuncs_new.c:74-116 | two structs with the same node tag compare equal exactly when they are identical or match field by field outside EQUAL_IGNORE |
| EqualFuncs.ListsCompareByCells | src/backend/nodes/equalfuncs_new.c:331-352 | two node lists compare equal exactly when they are identical or have the same length and every pair of cells compares equal |
| CopyFuncs.CopyValue | src/backend/nodes/copyfuncs_new.c:110-270 | the fixed-width kinds are copied by assignment, an embedded struct is copied to an embedded struct of as many fields, and a NULL node pointer leaves the destination as it is; exactness of the whole copy is CopyFuncs.CopyIsExact |
| CopyFuncs.CopyPointer | src/backend/nodes/copyfuncs_new.c:218-255 | an array, string or bitmap field succeeds exactly when it holds that kind; a NULL pointer leaves the destination as it is; a non-NULL array or bitmap is duplicated as it is; a non-NULL string is duplicated up to its first NUL, a prefix of the source holding no NUL |
| CopyFuncs.CopyEmbedded | src/backend/nodes/copyfuncs_new.c:155-189 | a copied embedded struct is an embedded struct with one value per source field |
| NodeOut.Escape | src/backend/nodes/outfuncs_new.c:504-512 | escaping never shortens the text and keeps a non-empty text non-empty |
| NodeOut.EscapeStep | src/backend/nodes/outfuncs_new.c:504-512 | the escaped form of a C string is the escape of its first character followed by the escaped rest |
| NodeOut.Quoted | src/backend/nodes/outfuncs_new.c:260-279 | a P_CHAR string is written between double quotes |
| NodeOut.OutInteger | src/backend/nodes/outfuncs_new.c:114-136 | an integer field whose value is within its C width is written as its decimal text |
| NodeOut.EnumIndex | src/backend/nodes/outfuncs_new.c:175-184 | the search finds the first constant with the value, and reports none only when no constant has it |
| NodeOut.OutEnum | src/backend/nodes/outfuncs_new.c:164-196 | writing an enum fails exactly when no constant of the enum has the value |
| NodeOut.ByteList | src/backend/nodes/outfuncs_new.c:198-209 | the byte list of a non-empty Datum is non-empty |
| NodeOut.HasLeast | src/backend/nodes/outfuncs_new.c:457-471 | every non-empty set of members has a least member |
| NodeOut.Least | src/backend/nodes/outfuncs_new.c:457-471 | the member chosen next is in the set and below every other member |
| NodeOut.AscendingMeaning | src/backend/nodes/outfuncs_new.c:457-471 | the members are written once each, all of them and no other, in strictly ascending order |
| NodeOut.MemberListFirst | src/backend/nodes/outfuncs_new.c:465-469 | the member list starts with the least member and continues with the list of the rest |
| NodeOut.EmbeddedType | src/backend/nodes/outfuncs_new.c:220-241 | an embedded struct is written under a type in the table whose field count matches the struct |
| NodeOut.LeafEnum | src/backend/nodes/outfuncs_new.c:164-196 | an enum-like scalar field is written by the enum writer |
| NodeOut.LeafString | src/backend/nodes/outfuncs_new.c:260-279 | a non-NULL P_CHAR field is written quoted |
| NodeOut.LeafBitmap | src/backend/nodes/outfuncs_new.c:310-319 | a non-NULL Bitmapset field is written as its member text |
| NodeOut.OutNodeDelimited | src/backend/nodes/outfuncs_new.c:58-101 | NULL and only NULL is written as `<>`; anything else is a list in parentheses or a node in braces, with the closing character matching the opening one |
| NodeOut.NodeOutContext.constructor | src/backend/nodes/outfuncs_new.c:48-51 | the output buffer starts empty |
| NodeOut.NodeOutContext.OutNodeRec | src/backend/nodes/outfuncs_new.c:58-101 | the writer fails exactly when the node has no text form, and otherwise appends that text to the buffer |
| NodeOut.NodeOutContext.OutListRec | src/backend/nodes/outfuncs_new.c:354-402 | a list is appended as its text form, and fails exactly when that has none |
| NodeOut.NodeOutContext.OutFieldsLoop | src/backend/nodes/outfuncs_new.c:330-352 | the field loop appends the text of every field in table order |
| NodeOut.NodeOutContext.OutFieldRec | src/backend/nodes/outfuncs_new.c:103-328 | one field is appended as its text form, dispatched on its known type |
| NodeOut.NodeOutContext.OutLeafRec | src/backend/nodes/outfuncs_new.c:114-326 | one scalar, string, enum, Datum, union or set is appended as its text form, and an unknown kind fails |
| NodeOut.NodeOutContext.OutArrayRec | src/backend/nodes/outfuncs_new.c:281-301 | a pgarr field is appended as its text form |
| NodeOut.NodeOutContext.OutElemsLoop | src/backend/nodes/outfuncs_new.c:292-298 | the element loop appends the text of every element in order |
| NodeOut.NodeOutContext.OutEmbeddedRec | src/backend/nodes/outfuncs_new.c:220-257 | an embedded struct is appended as its text form |
| NodeOut.NodeOutContext.OutBitmapset | src/backend/nodes/outfuncs_new.c:457-471 | the set is appended as its member text |
| NodeOut.NodeOutContext.OutToken | src/backend/nodes/outfuncs_new.c:481-513 | the token is appended in its escaped form |
| NodeOut.FindEnum | src/backend/nodes/outfuncs_new.c:175-184 | the search loop finds the same constant as the search specification |
| NodeOut.NodeToString | src/backend/nodes/outfuncs_new.c:45-56 | the result is the text form of the node |
| NodeIn.ReadAny | src/backend/nodes/readfuncs_new.c:87-140 | reading a node never moves backwards and never reads past the string's terminator |
| NodeIn.ReadDispatch | src/backend/nodes/readfuncs_new.c:103-136 | an empty token reads as NULL without consuming text; a token that opens neither a node nor a list is an error; a `{` that reads successfully yields the node read by the header and field reader, closed by a `}` |
| NodeIn.ReadNode | src/backend/nodes/readfuncs_new.c:196-237 | a node read by the node reader is a struct and its reading stays inside the string |
| NodeIn.ReadNodeHeader | src/backend/nodes/readfuncs_new.c:196-237 | a node that reads successfully had a non-empty type name token accepted against the table's name of the numeric tag that follows, the tag is in the table, the node has one value per field of its type, and the fields kept out of the text keep their zero value; a type name that does not match is an error |
| NodeIn.ReadFields | src/backend/nodes/readfuncs_new.c:239-270 | the field loop returns one value per field of the type, keeps the fields before the start index and never writes the fields that are kept out of the text |
| NodeIn.ReadNamedField | src/backend/nodes/readfuncs_new.c:255-268 | a named field is read forward within the string |
| NodeIn.FieldNameFault | src/backend/nodes/readfuncs_new.c:255-262 | the field name check passes exactly when the token is a colon followed by the field's own name, and otherwise names which of the three assertions fails |
| NodeIn.ReadField | src/backend/nodes/readfuncs_new.c:344-579 | reading one field of any known type moves forward within the string |
| NodeIn.ReadEmbedded | src/backend/nodes/readfuncs_new.c:478-520 | an embedded struct reads as an embedded value, within the string |
| NodeIn.EmbeddedStart | src/backend/nodes/readfuncs_new.c:496-510 | an embedded struct is filled under a type in the table, with one value per field of that type |
| NodeIn.ReadElems | src/backend/nodes/readfuncs_new.c:535-543 | reading n array elements yields exactly n more values |
| NodeIn.ReadElemThen | src/backend/nodes/readfuncs_new.c:535-543 | one element followed by the remaining n - 1 yields exactly n more values |
| NodeIn.ReadElem | src/backend/nodes/readfuncs_new.c:537-542 | one array element is read forward within the string |
| NodeIn.ReadList | src/backend/nodes/readfuncs_new.c:272-342 | a list is read forward within the string |
| NodeIn.ReadCells | src/backend/nodes/readfuncs_new.c:325-339 | the cells of a node list are read forward within the string |
| NodeIn.ReadInts | src/backend/nodes/readfuncs_new.c:287-304 | an integer list is read forward within the string; what a written list reads back as is RoundTrip.ReadIntsWritten |
| NodeIn.ReadIntsFrom | src/backend/nodes/readfuncs_new.c:293-303 | an integer list continues forward from the token just scanned; its whole-list meaning is RoundTrip.ReadIntsWritten |
| NodeIn.ReadOids | src/backend/nodes/readfuncs_new.c:306-324 | an OID list is read forward within the string; what a written list reads back as is RoundTrip.ReadOidsWritten |
| NodeIn.ReadOidsFrom | src/backend/nodes/readfuncs_new.c:313-323 | an OID list continues forward from the token just scanned; its whole-list meaning is RoundTrip.ReadOidsWritten |
| NodeIn.NumberListErrors | src/backend/nodes/readfuncs_new.c:293-321 | an integer or OID list that runs out of tokens is unterminated, and an element the number parser does not consume whole is rejected |
| NodeIn.ReadLeaf | src/backend/nodes/readfuncs_new.c:355-577 | a non-recursive field kind consumes its token and possibly more, never past the terminator |
| NodeIn.ReadEnumLeaf | src/backend/nodes/readfuncs_new.c:471-476 | an enum field reads successfully exactly when its token names a constant of the enum, and then holds that constant's value and consumes only that token |
| NodeIn.ReadOtherLeaf | src/backend/nodes/readfuncs_new.c:355-470 | the scalar, string, Datum, union and set kinds read forward within the string |
| NodeIn.ReadNumber | src/backend/nodes/readfuncs_new.c:359-404 | a numeric field consumes one token and holds a value in the range of its C type |
| NodeIn.ReadBool | src/backend/nodes/readfuncs_new.c:413-424 | a bool field consumes one token and holds a bool |
| NodeIn.ReadChar | src/backend/nodes/readfuncs_new.c:426-440 | a char field consumes one token and holds a char |
| NodeIn.ReadConstValue | src/backend/nodes/readfuncs_new.c:442-458 | a Const's Datum is read forward within the string |
| NodeIn.ReadString | src/backend/nodes/readfuncs_new.c:559-567 | a P_CHAR field consumes one token and holds a non-NULL string |
| NodeIn.ReadInteger | src/backend/nodes/readfuncs_new.c:359-404 | an integer token converts to a value within the field's C width |
| NodeIn.ReadUnion | src/backend/nodes/readfuncs_new.c:674-709 | the Value union consumes exactly its token |
| NodeIn.EnumNamed | src/backend/nodes/readfuncs_new.c:711-732 | the search finds the first constant with the given name and reports none only when no constant has it |
| NodeIn.ReadEnum | src/backend/nodes/readfuncs_new.c:711-732 | an unknown name is an error exactly when no constant has it; otherwise the result is the first such constant's value |
| NodeIn.ReadDatum | src/backend/nodes/readfuncs_new.c:588-637 | a Datum reads as a list of signed bytes, eight of them when passed by value |
| NodeIn.ReadBytes | src/backend/nodes/readfuncs_new.c:610-624 | reading n bytes yields n more signed bytes |
| NodeIn.ReadByteThen | src/backend/nodes/readfuncs_new.c:610-624 | one byte followed by the remaining n - 1 yields n more signed bytes |
| NodeIn.ReadBytesStep | src/backend/nodes/readfuncs_new.c:620-623 | reading n bytes is reading one token as a signed byte and then n - 1 more |
| NodeIn.ReadBitmap | src/backend/nodes/readfuncs_new.c:639-672 | a set that reads successfully is either NULL or has members; what a written set reads back as, including NULL for "(b)", is RoundTrip.ReadBitmapWritten |
| NodeIn.ReadMembers | src/backend/nodes/readfuncs_new.c:655-669 | reading members only adds to the set, every added member fits in int32, and a non-NULL set is never empty; the whole-list meaning is RoundTrip.ReadMembersWritten |
| NodeIn.ReadMembersFrom | src/backend/nodes/readfuncs_new.c:655-669 | the member loop continues from the token just scanned with the same guarantees; the whole-list meaning is RoundTrip.ReadMemberSeqWritten |
| NodeIn.NodeInContext.constructor | src/backend/nodes/readfuncs_new.c:66-68 | the reader starts at the beginning of the string |
| NodeIn.NodeInContext.NextToken | src/backend/nodes/readfuncs_new.c:142-194 | the tokenizer returns the token the scanning specification finds and moves the cursor past it |
| NodeIn.NodeInContext.Debackslash | src/backend/nodes/readfuncs_new.c:734-749 | the loop drops each escaping backslash, as the unescaping specification says |
| NodeIn.NodeInContext.ReadAnyRec | src/backend/nodes/readfuncs_new.c:87-140 | the reader method yields the node the reading specification gives and leaves the cursor where it ends |
| NodeIn.NodeInContext.ReadNodeRec | src/backend/nodes/readfuncs_new.c:196-237 | the node reader yields the specification's node and cursor |
| NodeIn.NodeInContext.ReadFieldsLoop | src/backend/nodes/readfuncs_new.c:239-270 | the field loop yields the specification's field values and cursor |
| NodeIn.NodeInContext.ReadNamedFieldRec | src/backend/nodes/readfuncs_new.c:250-268 | one named field yields the specification's value and cursor |
| NodeIn.NodeInContext.ReadFieldRec | src/backend/nodes/readfuncs_new.c:344-579 | one field yields the specification's value and cursor |
| NodeIn.NodeInContext.ReadEmbeddedRec | src/backend/nodes/readfuncs_new.c:478-520 | an embedded struct yields the specification's value and cursor |
| NodeIn.NodeInContext.ReadElemsLoop | src/backend/nodes/readfuncs_new.c:535-543 | the element loop yields the specification's elements and cursor |
| NodeIn.NodeInContext.ReadElemRec | src/backend/nodes/readfuncs_new.c:537-542 | one element yields the specification's value and cursor |
| NodeIn.NodeInContext.ReadListRec | src/backend/nodes/readfuncs_new.c:272-342 | the list reader yields the specification's list and cursor |
| NodeIn.NodeInContext.ReadCellsLoop | src/backend/nodes/readfuncs_new.c:325-339 | the cell loop yields the specification's cells and cursor |
| NodeIn.NodeInContext.ReadIntsLoop | src/backend/nodes/readfuncs_new.c:287-304 | the integer loop yields the specification's integers and cursor |
| NodeIn.NodeInContext.ReadOidsLoop | src/backend/nodes/readfuncs_new.c:306-324 | the OID loop yields the specification's OIDs and cursor |
| NodeIn.NodeInContext.ReadLeafRec | src/backend/nodes/readfuncs_new.c:355-577 | a non-recursive field yields the specification's value and cursor |
| NodeIn.NodeInContext.ReadOtherLeafRec | src/backend/nodes/readfuncs_new.c:355-470 | the scalar, string, Datum, union and set kinds yield the specification's value and cursor |
| NodeIn.NodeInContext.FindEnumNamed | src/backend/nodes/readfuncs_new.c:711-732 | the search loop gives the same value or error as the enum specification |
| NodeIn.NodeInContext.ReadEnumRec | src/backend/nodes/readfuncs_new.c:471-476 | an enum field yields the specification's value |
| NodeIn.NodeInContext.ReadConstValueRec | src/backend/nodes/readfuncs_new.c:442-458 | a Const's Datum yields the specification's value and cursor |
| NodeIn.NodeInContext.ReadDatumRec | src/backend/nodes/readfuncs_new.c:588-637 | the Datum reader yields the specification's bytes and cursor |
| NodeIn.NodeInContext.ReadBytesLoop | src/backend/nodes/readfuncs_new.c:610-624 | the byte loop yields the specification's bytes and cursor |
| NodeIn.NodeInContext.ReadByteNext | src/backend/nodes/readfuncs_new.c:620-623 | one byte step leaves the rest of the reading unchanged |
| NodeIn.NodeInContext.ReadUnionRec | src/backend/nodes/readfuncs_new.c:674-709 | the union reader gives the specification's value |
| NodeIn.NodeInContext.ReadStringRec | src/backend/nodes/readfuncs_new.c:559-567 | the string reader gives the specification's value |
| NodeIn.NodeInContext.ReadBitmapRec | src/backend/nodes/readfuncs_new.c:639-672 | the set reader yields the specification's set and cursor |
| NodeIn.StringToNodeNew | src/backend/nodes/readfuncs_new.c:63-77 | the entry point gives the node the reading specification gives for the whole string |
| RoundTrip.EscapeIsWord | src/backend/nodes/outfuncs_new.c:481-513 | the escaped form of a string without NUL is one token to the reader's tokenizer: every delimiter and backslash in it is escaped |
| RoundTrip.WordEndAt | src/backend/nodes/readfuncs_new.c:142-194 | the tokenizer ends a written word exactly at its last character when a delimiter follows |
| RoundTrip.StrtokWord | src/backend/nodes/readfuncs_new.c:142-194 | after blanks, a written word is scanned as one token of its own length, and `<>` as a token of length zero |
| RoundTrip.StrtokBracket | src/backend/nodes/readfuncs_new.c:162-167 | after blanks, a bracket or brace is a token of length one |
| RoundTrip.DecimalIsWord | src/backend/nodes/outfuncs_new.c:114-136 | the decimal text of an integer is one non-empty token that is not `<>` |
| RoundTrip.UnescapeEscape | src/backend/nodes/readfuncs_new.c:734-749 | removing the backslashes that the writer's escape adds gives back the original string |
| RoundTrip.QuotedForm | src/backend/nodes/outfuncs_new.c:260-279 | a quoted string is a double quote, the escaped string, a double quote, and scans as one token |
| RoundTrip.ReadStringQuoted | src/backend/nodes/readfuncs_new.c:559-567 | reading the written form of a non-NULL string gives the same string and consumes exactly the written text |
| RoundTrip.ReadCharWritten | src/backend/nodes/readfuncs_new.c:426-440 | reading the written form of any char gives the same char and consumes exactly the written text |
| RoundTrip.BoolWord | src/backend/nodes/outfuncs_new.c:144-146 | the written form of a bool is one token |
| RoundTrip.ReadBoolWritten | src/backend/nodes/readfuncs_new.c:413-424 | reading the written form of a bool gives the same bool and consumes exactly the written text |
| RoundTrip.StrtokDecimal | src/backend/nodes/readfuncs_new.c:142-194 | after blanks, a written decimal is scanned as one token holding exactly that text |
| RoundTrip.ReadIntegerInPlace | src/backend/nodes/readfuncs_new.c:359-366 | a value within a 16- or 32-bit field's range reads back from its decimal text unchanged |
| RoundTrip.ReadIntegerCopied | src/backend/nodes/readfuncs_new.c:367-370 | a value within a 64-bit field's range reads back from its decimal text unchanged |
| RoundTrip.ReadIntegerWritten | src/backend/nodes/readfuncs_new.c:359-404 | any integer field's value within its C range reads back from its decimal text unchanged |
| RoundTrip.ReadNumberWritten | src/backend/nodes/readfuncs_new.c:359-404 | an integer field within its C type's range, scanned as the token holding the written digits (the token RoundTrip.StrtokDecimal finds), reads back as the same value and ends just past the digits |
| RoundTrip.ReadLocationWritten | src/backend/nodes/readfuncs_new.c:372-393 | a location token holding the written digits reads back as the written value when locations are restored, and as -1 otherwise |
| RoundTrip.ReadEnumWritten | src/backend/nodes/readfuncs_new.c:711-732 | the written name of an enum value reads back as the value, for enums whose constant names are plain tokens |
| RoundTrip.NumberElement | src/backend/nodes/outfuncs_new.c:354-402 | an element of a written number list is a blank, one decimal token that is not the closing parenthesis, and the rest of the list |
| RoundTrip.SignedElement | src/backend/nodes/readfuncs_new.c:299-302 | a written list element is one token that strtol consumes whole, giving back the written value |
| RoundTrip.UnsignedElement | src/backend/nodes/readfuncs_new.c:319-322 | a written list element is one token that strtoul consumes whole, giving back the written value |
| RoundTrip.Int32OfUInt32 | src/backend/nodes/readfuncs_new.c:299 | converting an int32 to uint32 and back gives the same value |
| RoundTrip.ReadIntsEnd | src/backend/nodes/readfuncs_new.c:297-298 | at the closing parenthesis an integer list ends with the elements read so far |
| RoundTrip.ReadOidsEnd | src/backend/nodes/readfuncs_new.c:317-318 | at the closing parenthesis an OID list ends with the elements read so far |
| RoundTrip.ReadMembersEnd | src/backend/nodes/readfuncs_new.c:662-663 | at the closing parenthesis a set ends with the members read so far |
| RoundTrip.ReadIntsStep | src/backend/nodes/readfuncs_new.c:293-303 | one written element of an integer list is appended as the int32 value |
| RoundTrip.ReadOidsStep | src/backend/nodes/readfuncs_new.c:313-323 | one written element of an OID list is appended as the same value |
| RoundTrip.ReadMembersStep | src/backend/nodes/readfuncs_new.c:655-669 | one written member of a set is added to the set |
| RoundTrip.ReadIntsElement | src/backend/nodes/readfuncs_new.c:293-303 | reading a written integer list element appends the written value and leaves the rest of the written list next |
| RoundTrip.ReadOidsElement | src/backend/nodes/readfuncs_new.c:313-323 | reading a written OID list element appends the written value and leaves the rest of the written list next |
| RoundTrip.ReadMembersElement | src/backend/nodes/readfuncs_new.c:655-669 | reading a written set member adds it to the set and leaves the rest of the written set next |
| RoundTrip.ReadIntsWritten | src/backend/nodes/readfuncs_new.c:287-304 | an integer list written by the output side, every element an int32, reads back as exactly those elements appended to what was read, in order, ending just past its ")" |
| RoundTrip.ReadOidsWritten | src/backend/nodes/readfuncs_new.c:306-324 | an OID list written by the output side, every element a uint32, reads back as exactly those OIDs appended to what was read, in order, ending just past its ")" |
| RoundTrip.ReadMemberSeqWritten | src/backend/nodes/readfuncs_new.c:655-669 | a written run of members adds exactly those members to the set read so far; with nothing read and nothing written the set stays NULL |
| RoundTrip.ReadMembersWritten | src/backend/nodes/readfuncs_new.c:655-669 | the members of a set, written in increasing order, read back as the set itself added to what was read; no member and nothing read leaves NULL |
| RoundTrip.ReadBitmapWritten | src/backend/nodes/readfuncs_new.c:640-671 | a set written as "(b m1 m2 ...)" reads back as the same set, and the empty set, written "(b)", reads back as NULL; the cursor ends just past ")" |
| RoundTrip.AscendingElems | src/backend/nodes/outfuncs_new.c:465-469 | the members the writer visits are exactly the set's, and when every member fits in int32 so does every visited one |
| GenNodes.IndexOf | src/backend/nodes/gennodes.c:56-71 | the lookup result is -1 or a valid index of the array |
| GenNodes.IndexOfMeaning | src/backend/nodes/gennodes.c:56-71 | the lookup gives -1 exactly when the string is absent, and otherwise the position of its first occurrence |
| GenNodes.IndexOfIs | src/backend/nodes/gennodes.c:56-71 | any first occurrence, or -1 for an absent string, is what the lookup gives |
| GenNodes.IndexOfExtended | src/backend/nodes/gennodes.c:56-71 | appending to the array does not move a string already in it |
| GenNodes.IndexOfAppended | src/backend/nodes/gennodes.c:80-86 | a string appended when absent is found at the old size |
| GenNodes.StringInArr | src/backend/nodes/gennodes.c:56-71 | the search loop returns -1 exactly when the string is absent, and otherwise its first position, skipping NULL entries |
| GenNodes.DistinctAppend | src/backend/nodes/gennodes.c:73-87 | appending an absent string keeps the table free of duplicates |
| GenNodes.Name | src/backend/nodes/gennodes.c:89-95 | every flag name appended is a non-empty identifier |
| GenNodes.JoinEmpty | src/backend/nodes/gennodes.c:89-95 | the joined flags are empty exactly when no flag was appended |
| GenNodes.JoinSnoc | src/backend/nodes/gennodes.c:89-95 | appending a flag puts the separator (space, vertical bar, space) before it only when the buffer is not empty |
| GenNodes.RenderZero | src/backend/nodes/gennodes.c:557-558 | the rendered flags are `0` exactly when no flag was appended |
| GenNodes.FlagBuffer.constructor | src/backend/nodes/gennodes.c:432 | the flags buffer starts empty |
| GenNodes.FlagBuffer.Append | src/backend/nodes/gennodes.c:89-95 | the buffer holds the flags appended so far joined by the vertical-bar separator |
| GenNodes.FlagBuffer.Finish | src/backend/nodes/gennodes.c:557-558 | the finished buffer is `0` for no flags and the joined flags otherwise |
| GenNodes.TableGrows | src/backend/nodes/gennodes.c:73-87 | growing the string table keeps every enum, constant and field record's references valid |
| GenNodes.SliceGrows | src/backend/nodes/gennodes.c:73-87 | growing the string table keeps an enum's constants named |
| GenNodes.SliceExtends | src/backend/nodes/gennodes.c:128-145 | one more constant record, naming its own string and holding its value as uint32, extends the enum's slice of constants |
| GenNodes.ConstsGrow | src/backend/nodes/gennodes.c:137-142 | appending a constant record keeps the enum registry and constant table well formed |
| GenNodes.EnumRegistered | src/backend/nodes/gennodes.c:164-173 | registering a new enum name with its record keeps the registry free of duplicates and every record naming its enum |
| GenNodes.CollectInfo.constructor | src/backend/nodes/gennodes.c:671 | collection starts with empty tables and the node-type names given |
| GenNodes.CollectInfo.Intern | src/backend/nodes/gennodes.c:73-87 | interning returns the id of the string, appending it only when absent, so the table never holds a duplicate, and changes nothing else |
| GenNodes.CollectInfo.AddEnumConsts | src/backend/nodes/gennodes.c:128-145 | every constant of the enum is appended in order, naming its interned name and holding its value as uint32, and the earlier constants stay |
| GenNodes.CollectInfo.GetEnum | src/backend/nodes/gennodes.c:147-178 | the enum is registered once: an enum already known keeps every table, a new one gets a record over its constants; the result is its registry index as uint16 |
| GenNodes.CollectInfo.AddEnum | src/backend/nodes/gennodes.c:154-175 | a new enum is appended at the end of the registry with a record owning exactly its constants, which follow the earlier ones |
| GenNodes.CollectInfo.LookupType | src/backend/nodes/gennodes.c:216-232 | an enum type gives ENUM and its registry index, a known node struct gives NODE and its node-type index, anything else keeps the outputs; an enum is registered afterwards |
| GenNodes.CollectInfo.CategorizeHead | src/backend/nodes/gennodes.c:198-232 | TYPE_CAT_SCALAR is appended for pointers and non-pointers alike, then the lookup specification's outputs |
| GenNodes.CollectInfo.CategorizeElem | src/backend/nodes/gennodes.c:183-367 | the element call gives the categorization specification's outputs and flags, refusing a nested pgarr |
| GenNodes.CollectInfo.CategorizeType | src/backend/nodes/gennodes.c:183-367 | the field call gives the categorization specification's outputs and flags, including the element's for a pgarr, and registers every enum it meets |
| GenNodes.CollectInfo.ApplyRules | src/backend/nodes/gennodes.c:451-550 | the rule chain appends the chosen rule's flags and only the opfuncid rule changes the known type |
| GenNodes.CollectInfo.VisitField | src/backend/nodes/gennodes.c:414-579 | a field that categorizes appends one record describing it at the current position; one that does not fails as the categorization does |
| GenNodes.CollectInfo.RecordField | src/backend/nodes/gennodes.c:436-579 | one record is appended with the interned field and type names, the size, the rendered flags and the categorized ids, and the position advances |
| GenNodes.CollectInfo.FinishFlags | src/backend/nodes/gennodes.c:436-558 | the flags are the categorization's, TYPE_CAT_INCOMPLETE for an unknown size, then the rule's, rendered as `0` when there are none |
| GenNodes.CollectInfo.VisitStruct | src/backend/nodes/gennodes.c:640-648 | a struct whose fields all categorize appends exactly one record per field, in order, each describing its field, and keeps the earlier records |
| GenNodes.SnocSlices | src/backend/nodes/gennodes.c:643-648 | one record more at the end leaves the earlier slices and extends the struct's slice |
| GenNodes.StructRecordedExtends | src/backend/nodes/gennodes.c:643-648 | a struct's records so far, with the next field's record appended, describe one more field |
| GenNodes.BudgetPrefix | src/backend/nodes/gennodes.c:643-648 | the strings a struct's fields can intern add up field by field |
| GenNodes.RecordedStays | src/backend/nodes/gennodes.c:73-87 | a field record stays valid as the string table and the enum registry grow |
| GenNodes.RegisteredGrows | src/backend/nodes/gennodes.c:147-178 | an enum registered stays registered as the registry grows |
| GenNodes.LookedStays | src/backend/nodes/gennodes.c:216-232 | the lookup of a registered enum does not change as the registry grows |
| GenNodes.CategorizedStays | src/backend/nodes/gennodes.c:183-367 | the categorization of a field does not change as the registry grows once its enums are registered |
| GenNodes.CategoryFlagsStartScalar | src/backend/nodes/gennodes.c:198-208 | every categorized field's flags start with TYPE_CAT_SCALAR, pointer or not |
| GenNodes.LocationAndCoercionForm | src/backend/nodes/gennodes.c:235-247 | a Location or CoercionForm field always categorizes, gets its own known type, and is ignored by equal |
| GenNodes.LocationBranch | src/backend/nodes/gennodes.c:235-236 | the Location branch is taken exactly for a typedef named Location over int |
| GenNodes.EnumField | src/backend/nodes/gennodes.c:216-220 | an enum that no named branch claims is categorized as ENUM with its registry index |
| GenNodes.CategorizeErrors | src/backend/nodes/gennodes.c:311-339 | an embedded struct Node and an array of arrays are refused |
| GenNodes.CategorizeNeverOpFuncId | src/backend/nodes/gennodes.c:183-367 | categorization alone never yields KNOWN_TYPE_OPFUNCID |
| GenNodes.FirstNodeTagOutIgnore | src/backend/nodes/gennodes.c:451-455 | a NodeTag as the first field is not written out |
| GenNodes.RestrictInfoRules | src/backend/nodes/gennodes.c:503-537 | in RestrictInfo, equal ignores exactly the fields outside the eight it compares, the five equivalence pointers are copied shallowly, and only scansel_cache is not copied |
| GenNodes.CopyIgnoredIsEqualIgnored | src/backend/nodes/gennodes.c:503-537 | every field the generator flags TYPE_COPY_IGNORE is also flagged TYPE_EQUAL_IGNORE and is not the leading NodeTag field, which is the table condition under which a copy compares equal |
| GenNodes.PathKeyRule | src/backend/nodes/gennodes.c:538-546 | in PathKey only pk_eclass gets the equal and copy scalar flags |
| GenNodes.OpFuncIdRule | src/backend/nodes/gennodes.c:547-550 | a field gets KNOWN_TYPE_OPFUNCID exactly when it is named opfuncid and no earlier rule applies; otherwise the known type is kept |
| ZedstoreVisibility.TupleLockCompatible | src/backend/access/zedstore/zedstore_visibility.c:19-41 | an unknown requested mode is an error, whatever the held mode; between known modes the request is compatible exactly when the held mode is known and their strengths add up to at most 2 |
| ZedstoreVisibility.TupleLockTable | src/backend/access/zedstore/zedstore_visibility.c:19-41 | a new lock mode outside the four is an error; between two valid modes the check is compatible exactly when their strengths add up to at most two, which makes it symmetric; a known new mode against an unknown held mode is incompatible |
| ZedstoreVisibility.TupleLockMonotone | src/backend/access/zedstore/zedstore_visibility.c:19-41 | a weaker request is compatible with every held lock a stronger one is compatible with |
| ZedstoreVisibility.XidIsVisible | src/backend/access/zedstore/zedstore_visibility.c:419-442 | a change reported visible was made by our own or a committed transaction; it is reported aborted exactly when its transaction is neither ours, in the snapshot, nor committed; never both |
| ZedstoreVisibility.XidIsVisibleCases | src/backend/access/zedstore/zedstore_visibility.c:419-442 | a change is visible exactly when it is our own from an earlier command or committed and outside the snapshot, aborted exactly when it is none of ours, not in the snapshot and not committed, and never both |
| ZedstoreVisibility.SatisfiesMvcc | src/backend/access/zedstore/zedstore_visibility.c:447-529 | the undo-chain loop gives the MVCC walk's verdict and outputs |
| ZedstoreVisibility.SatisfiesSelf | src/backend/access/zedstore/zedstore_visibility.c:534-622 | the undo-chain loop gives the Self walk's verdict and outputs |
| ZedstoreVisibility.SatisfiesAny | src/backend/access/zedstore/zedstore_visibility.c:367-413 | the undo-chain loop gives the Any walk's verdict and outputs |
| ZedstoreVisibility.SatisfiesDirty | src/backend/access/zedstore/zedstore_visibility.c:627-742 | the undo-chain loop, after clearing the snapshot's xmin and xmax, gives the Dirty walk's verdict and outputs |
| ZedstoreVisibility.SatisfiesNonVacuumable | src/backend/access/zedstore/zedstore_visibility.c:748-856 | the undo-chain loop gives the NonVacuumable walk's verdict and outputs, with the missing-record check corrected |
| ZedstoreVisibility.InserterLoop | src/backend/access/zedstore/zedstore_visibility.c:822-845 | the loop looking past lock records for the inserter gives the corrected specification's verdict |
| ZedstoreVisibility.SatisfiesVisibility | src/backend/access/zedstore/zedstore_visibility.c:864-919 | a scan without an oldest undo pointer fails its assertion; an item without an undo pointer is visible; otherwise the verdict is the snapshot kind's walk; the item's undo pointer is never changed |
| ZedstoreVisibility.OldRecordIsVisible | src/backend/access/zedstore/zedstore_visibility.c:459-465 | every walk sees a record older than the oldest undo pointer as visible and frozen |
| ZedstoreVisibility.MissingRecordRetries | src/backend/access/zedstore/zedstore_visibility.c:467-476 | every walk that cannot fetch a record refreshes the oldest pointer: still newer is an error, otherwise the record counts as old and visible |
| ZedstoreVisibility.MvccSkipsLocks | src/backend/access/zedstore/zedstore_visibility.c:492-498 | MVCC skips tuple lock records |
| ZedstoreVisibility.MvccDeleteOrUpdate | src/backend/access/zedstore/zedstore_visibility.c:499-526 | MVCC stops with invisible at a visible delete or update, and otherwise continues down the chain, recording the deleter as obsoleting unless it aborted |
| ZedstoreVisibility.MvccObsoletingFromChain | src/backend/access/zedstore/zedstore_visibility.c:447-529 | the obsoleting xid MVCC reports is the one it started with or the xid of a record on the item's undo chain |
| ZedstoreVisibility.ChainStep | src/backend/access/zedstore/zedstore_visibility.c:447-529 | everything on the chain after a record is on the chain from it |
| ZedstoreVisibility.MvccOldestGrows | src/backend/access/zedstore/zedstore_visibility.c:467-476 | MVCC only ever moves the oldest undo pointer forward |
| ZedstoreVisibility.AnyIsAlwaysVisible | src/backend/access/zedstore/zedstore_visibility.c:367-413 | SnapshotAny finds every item that it does not fail on visible |
| ZedstoreVisibility.WalksKeepUndoPtr | src/backend/access/zedstore/zedstore_visibility.c:864-919 | no snapshot kind's walk changes the item's undo pointer |
| ZedstoreVisibility.MvccKeepsUndoPtr | src/backend/access/zedstore/zedstore_visibility.c:447-529 | MVCC does not change the item's undo pointer |
| ZedstoreVisibility.SelfKeepsUndoPtr | src/backend/access/zedstore/zedstore_visibility.c:534-622 | Self does not change the item's undo pointer |
| ZedstoreVisibility.AnyKeepsUndoPtr | src/backend/access/zedstore/zedstore_visibility.c:367-413 | Any does not change the item's undo pointer |
| ZedstoreVisibility.DirtyKeepsUndoPtr | src/backend/access/zedstore/zedstore_visibility.c:627-742 | Dirty does not change the item's undo pointer |
| ZedstoreVisibility.InserterKeepsUndoPtr | src/backend/access/zedstore/zedstore_visibility.c:822-845 | the inserter search does not change the item's undo pointer |
| ZedstoreVisibility.NonVacuumableKeepsUndoPtr | src/backend/access/zedstore/zedstore_visibility.c:748-856 | NonVacuumable does not change the item's undo pointer |
| ZedstoreVisibility.UnsupportedSnapshots | src/backend/access/zedstore/zedstore_visibility.c:900-910 | SnapshotToast and SnapshotHistoricMVCC are refused |
| ZedstoreVisibility.InserterRefreshAsWritten | src/backend/access/zedstore/zedstore_visibility.c:826-834 | with the pointer tested as written, a missing inserter record older than the refreshed oldest pointer is still reported missing, where the corrected test finds the row live |
| ZedstoreVisibility.InserterRefresh | src/backend/access/zedstore/zedstore_visibility.c:826-834 | a missing inserter record is an error exactly when it is not older than the refreshed oldest pointer, and otherwise the row is live with the refreshed pointer |
| ZedstoreVisibility.AmIHoldingLock | src/backend/access/zedstore/zedstore_visibility.c:43-88 | the loop gives the holding-lock walk's answer |
| ZedstoreVisibility.HoldingLockMeaning | src/backend/access/zedstore/zedstore_visibility.c:43-88 | when we hold a lock, some record on the chain belongs to our own transaction |
| ZedstoreVisibility.SatisfiesUpdate | src/backend/access/zedstore/zedstore_visibility.c:109-361 | the loop gives the update walk's result and outputs, starting at depth one with the lock flag clear and the undo record needed |
| ZedstoreVisibility.UpdateOldRecord | src/backend/access/zedstore/zedstore_visibility.c:132-147 | an old record gives TM_Ok with a frozen xmin, and the undo record is needed only when it was not the item's own |
| ZedstoreVisibility.UpdateOwnStrongLock | src/backend/access/zedstore/zedstore_visibility.c:201-209 | a lock of our own at least as strong as the request gives TM_Ok with the lock flag set and the undo record needed |
| ZedstoreVisibility.UpdateConflictingLocker | src/backend/access/zedstore/zedstore_visibility.c:212-224 | an incompatible lock held by another live transaction gives TM_BeingModified with its xid as the failure's xmax, and asks whether we hold a weaker lock only when the flag is not yet set |
| ZedstoreVisibility.UpdateLockIsOurs | src/backend/access/zedstore/zedstore_visibility.c:109-361 | the update walk sets the lock flag only when a record on the chain belongs to our own transaction |
| ZedstoreVisibility.StepLockIsOurs | src/backend/access/zedstore/zedstore_visibility.c:160-359 | one record step sets the lock flag only for a record of our own transaction or after we found one |
| ZedstoreVisibility.MvccWalk | src/backend/access/zedstore/zedstore_visibility.c:447-529 | the MVCC walk down the undo chain, the specification SatisfiesMvcc is proved to compute; its cases are stated by OldRecordIsVisible, MissingRecordRetries, MvccSkipsLocks and MvccDeleteOrUpdate, its outputs by MvccObsoletingFromChain, MvccOldestGrows and MvccKeepsUndoPtr |
| ZedstoreVisibility.SelfWalk | src/backend/access/zedstore/zedstore_visibility.c:534-622 | the Self walk down the undo chain, the specification SatisfiesSelf is proved to compute; OldRecordIsVisible, MissingRecordRetries and SelfKeepsUndoPtr state its shared cases and outputs |
| ZedstoreVisibility.AnyWalk | src/backend/access/zedstore/zedstore_visibility.c:367-413 | the Any walk down the undo chain, the specification SatisfiesAny is proved to compute; AnyIsAlwaysVisible and AnyKeepsUndoPtr state what it yields |
| ZedstoreVisibility.DirtyWalk | src/backend/access/zedstore/zedstore_visibility.c:627-742 | the Dirty walk down the undo chain, the specification SatisfiesDirty is proved to compute after resetting the snapshot fields; OldRecordIsVisible, MissingRecordRetries and DirtyKeepsUndoPtr state its shared cases and outputs |
| ZedstoreVisibility.NonVacuumableWalk | src/backend/access/zedstore/zedstore_visibility.c:748-856 | the NonVacuumable walk down the undo chain, as written or with the corrected refresh test, the specification SatisfiesNonVacuumable is proved to compute; InserterRefresh, InserterRefreshAsWritten and NonVacuumableKeepsUndoPtr state its cases and outputs |
| ZedstoreVisibility.HoldingLockWalk | src/backend/access/zedstore/zedstore_visibility.c:43-88 | the lock search down the undo chain, the specification AmIHoldingLock is proved to compute; HoldingLockMeaning states that a true answer comes from a record of our own transaction |
| ZedstoreVisibility.UpdateWalk | src/backend/access/zedstore/zedstore_visibility.c:109-361 | the update-check walk down the undo chain, the specification SatisfiesUpdate is proved to compute; UpdateOldRecord, UpdateOwnStrongLock, UpdateConflictingLocker and UpdateLockIsOurs state its cases |
| UniqueKeys.UniqueKeyContainsIn | src/backend/optimizer/path/uniquekey.c:247-283 | the check holds exactly when every expression set of the key is either the single-row marker of a relation in the relids or an equivalence-class list all of whose classes are among the given ones |
| UniqueKeys.PathkeyEcs | src/backend/optimizer/path/uniquekey.c:101-110 | the pathkeys' classes are collected one per pathkey, in order |
| UniqueKeys.PathkeyRelids | src/backend/optimizer/path/uniquekey.c:101-110 | the relids collected are exactly those of some pathkey's class |
| UniqueKeys.RelationIsDistinctFor | src/backend/optimizer/path/uniquekey.c:97-124 | the relation is distinct for the pathkeys exactly when one of its keys that does not allow several NULLs is contained in them |
| UniqueKeys.EcsUsefulForDistinct | src/backend/optimizer/path/uniquekey.c:289-316 | the classes are useful for DISTINCT exactly when every one of them is the class of some DISTINCT pathkey |
| UniqueKeys.EcsUsefulForMerging | src/backend/optimizer/path/uniquekey.c:322-335 | the classes are useful for merging exactly when the planner callback says so for every one of them |
| UniqueKeys.UsefulForDistinctCovered | src/backend/optimizer/path/uniquekey.c:289-316 | classes useful for DISTINCT are all among the DISTINCT pathkeys' classes |
| UniqueKeys.ConstPeersAligned | src/backend/optimizer/path/uniquekey.c:59-74 | one operator family list is kept per constant peer, at most one per clause, each from a clause with merge operator families |
| UniqueKeys.CollectConstPeers | src/backend/optimizer/path/uniquekey.c:59-74 | the clause loop collects the specification's constant peers and their operator families |
| UniqueKeys.MatchConstPeer | src/backend/optimizer/path/uniquekey.c:179-187 | a column matches a constant exactly when some peer's operator families contain the column's and the planner callback matches the peer to the column |
| UniqueKeys.ScanStopsAtSystemColumn | src/backend/optimizer/path/uniquekey.c:145-173 | the column scan gives up exactly when some key column is a system column |
| UniqueKeys.ScanGathers | src/backend/optimizer/path/uniquekey.c:145-193 | a completed scan only adds expressions, adds none exactly when every column matches a constant, and allows several NULLs exactly when some column may be NULL |
| UniqueKeys.UniqueIndexOutcomes | src/backend/optimizer/path/uniquekey.c:131-240 | an index with a system column is skipped; the relation is single-row exactly when every column matches a constant; a new key has non-empty classes, is for DISTINCT exactly when they are useful for it, and otherwise is useful for merging |
| UniqueKeys.ApplyKeepsIndexes | src/backend/optimizer/path/uniquekey.c:233-239 | recording an outcome keeps every key's indexes pointing into the unique expression list, which only grows |
| UniqueKeys.SingleRowDistinct | src/backend/optimizer/path/uniquekey.c:353-364 | after marking a relation single-row, it is distinct for the pathkeys exactly when its id is among their relids |
| UniqueKeys.NewKeyDistinct | src/backend/optimizer/path/uniquekey.c:233-239 | a new key without several NULLs, over classes all among the pathkeys' classes, makes the relation distinct for them |
| UniqueKeys.MultiNullKeyIgnored | src/backend/optimizer/path/uniquekey.c:111-116 | a key that allows several NULLs never decides distinctness |
| UniqueKeys.DistinctForMorePathkeys | src/backend/optimizer/path/uniquekey.c:97-124 | a relation distinct for some pathkeys stays distinct when more pathkeys are added |
| UniqueKeys.MarkRelSingleRow | src/backend/optimizer/path/uniquekey.c:353-364 | the single-row marker is appended to the unique expressions and the relation's keys are replaced by one key on it, not multi-null and for DISTINCT |
| UniqueKeys.AddUniqueKeyForUniqueIndex | src/backend/optimizer/path/uniquekey.c:131-240 | the planner and relation change as the index's outcome says, and the result is true exactly for the single-row case |
| UniqueKeys.PopulateKeepsIndexes | src/backend/optimizer/path/uniquekey.c:76-88 | walking the indexes keeps every key's indexes valid and only grows the unique expressions |
| UniqueKeys.PopulateSingleRow | src/backend/optimizer/path/uniquekey.c:76-88 | when an eligible index makes the relation single-row, the walk ends with the single-row key alone |
| UniqueKeys.PopulateBaserelUniquekeys | src/backend/optimizer/path/uniquekey.c:50-91 | the planner and relation end as the index walk over the eligible indexes with the gathered constant peers says |
| UniqueKeys.ScanColumns | src/backend/optimizer/path/uniquekey.c:145-193 | the column loop of add_uniquekey_for_uniqueindex; what it yields is stated by ScanStopsAtSystemColumn (it stops exactly at a system column) and ScanGathers (which expressions it adds and when multinull is set) |
| UniqueKeys.UniqueIndexOutcome | src/backend/optimizer/path/uniquekey.c:145-239 | the decision one unique index leads to; UniqueIndexOutcomes states each outcome in terms of the index's columns, constants and pathkeys, and AddUniqueKeyForUniqueIndex is proved to carry it out |
| UniqueKeys.PopulateFrom | src/backend/optimizer/path/uniquekey.c:76-88 | the index loop of populate_baserel_uniquekeys; PopulateKeepsIndexes and PopulateSingleRow state what it keeps and how a single-row index ends it, and PopulateBaserelUniquekeys is proved to carry it out |

## Left out

- Floating-point fields are not modelled. This covers `appendStringInfoFloat`/`appendStringInfoDouble`, `strtof`/`strtod` and the shortest-decimal text form. A float value can be copied and compared, but writing or reading one is an `Unmodelled` fault.
- Printf-style formatting (`appendStringInfo`, `appendStringInfoVA`, `pvsnprintf`) is not modelled. It is foreign formatting code.
- `pg_strtouint64` and `strtoint` are not modelled. They are wrappers over libc `strtoul`/`strtol`.
- `pg_uint16tostr_nn` is not modelled. It is declared in `string.h` but has no definition in this tree.
- The generator's `main`, its libclang visitors, the clang type queries of `categorize_type` and all of its file output are left out. They are foreign calls and I/O. Clang's answers are given to the model as field and type descriptions.
- The transaction manager and undo storage are left out, because they are concurrent. `TransactionIdIsCurrentTransactionId`, `TransactionIdIsInProgress`, `TransactionIdDidCommit`, `XidInMVCCSnapshot`, `zsundo_fetch_record` and the refreshed oldest undo pointer are parameters in `Env`.
- `IsZSUndoRecPtrValid` is not part of this model. An undo pointer is valid when its counter is nonzero.
- NodeOut.NodeOutContext.OutLeafRec: the writer appends to an unbounded string, not to the `StringInfo` class. An int64 or uint64 field is written as its full decimal text (src/backend/nodes/outfuncs_new.c:123,134). So the 13-byte `MAXINT64LEN` reservation of `appendStringInfoInt64`/`appendStringInfoUInt64`, and the overrun it allows (see Findings), are not carried into `nodeToString`. They are modelled only on `StringInfos.StringInfo` itself.
- `print_uniquekey` is not modelled. It is debugging output.
- The planner callbacks `match_index_to_operand`, `ec_useful_for_merging`, `build_equivalanceclass_list_for_exprs` and `predicate_implied_by` are parameters (abstract predicates and functions), as is index metadata.
- `make_uniquekey` is the `UniqueKey` datatype constructor. It has no separate member.
- `check_stack_depth` is not modelled. Recursion depth is bounded by the size of the value.
- Byte offsets, `memcpy`/`memcmp` on struct memory, `castNode` and `palloc`/`repalloc` are modelled on values. Pointer identity of nodes is value identity. The equality and copy lemmas state that this is sound for the shortcut tests the C code makes.
- `outDatum`, `datumCopy` and `datumIsEqual` are foreign. A Datum is its byte list, in the format `nodein_datum` reads.
- The `USE_NEW_NODE_FUNCS` dispatch and `nodeToStringOld`/`stringToNodeOld` are not part of this model.
- `src/backend/executor/nodeSeqscan.c`, `src/backend/executor/cstore_api.c` and `src/include/access/cstore_api.h` are not part of this model. They are executor plumbing over table-access calls.
- `sysattr.h` is not part of this model. The model gives `FirstLowInvalidHeapAttributeNumber` its PostgreSQL value, -7.
- The round trip of a whole node list (`(` node node … `)`) through writer and reader is not stated. Integer lists, OID lists and bitmap sets are round-tripped whole (`RoundTrip.ReadIntsWritten`, `RoundTrip.ReadOidsWritten`, `RoundTrip.ReadBitmapWritten`).
- NodeIn.ReadAny: its own contract states only that the cursor moves forward and stays within the string. What it reads is stated by `NodeIn.ReadDispatch`, `NodeIn.ReadNodeHeader` and the round-trip lemmas, not by a whole-node round trip.
- NodeIn.ReadNode: states only the cursor bound and that the result is a struct. The header rules are in `NodeIn.ReadNodeHeader`.
- NodeIn.ReadField: states only the cursor bound. Field contents are stated per kind by the leaf readers and the round-trip lemmas.
- NodeIn.ReadList: states only the cursor bound. The errors are in `NodeIn.NumberListErrors`, and the element round trips are in `RoundTrip`.
- NodeIn.ReadCells: states only the cursor bound. A whole node list is not round-tripped.
- NodeIn.ReadInts: states only the cursor bound. What a written list reads back as is `RoundTrip.ReadIntsWritten`.
- NodeIn.ReadOids: states only the cursor bound. What a written list reads back as is `RoundTrip.ReadOidsWritten`.
- NodeIn.ReadIntsFrom: states only the cursor bound. Its whole-list meaning is `RoundTrip.ReadIntsWritten`.
- NodeIn.ReadOidsFrom: states only the cursor bound. Its whole-list meaning is `RoundTrip.ReadOidsWritten`.
- GenNodes.CollectInfo.RecordField: C leaves open the order in which the two `intern_string` calls among the `psprintf` arguments run (src/backend/nodes/gennodes.c:561-562). The model interns the field name before the type name. That is one of the orders a compiler may choose. Under the other order, two names that are both new would get each other's indexes.
- NodeIn.ReadConstValue: states only the cursor bound. The Datum's shape is in `NodeIn.ReadDatum`.

## Findings

| source | as written | input that shows it | evidently intended | confidence | as-written member | corrected member |
|---|---|---|---|---|---|---|
| src/common/pgarr.c:22-28 | for inline storage, `pgarr_realloc` copies the elements into a new buffer but never stores that buffer in `elementsp`, and it still raises `capacity` | an inline array of capacity 8 grown to capacity 16 | store the new buffer so that the capacity never exceeds the storage | not executed | PgArrs.PgArr.ReallocAsWritten | PgArrs.PgArr.Realloc |
| src/common/pgarr.c:13 | `pgarr_realloc` asserts `newcapacity < PG_UINT32_MAX`, but the growth rule clamps to exactly `PG_UINT32_MAX` (src/include/lib/pgarr.h:259-260) | an array of size 2^31 grown by one element | accept a capacity of `PG_UINT32_MAX` (assert `<=`) | not executed | PgArrs.GrowthReachesAssertedLimit | PgArrs.PgArr.ReserveRealloc |
| src/include/lib/pgarr.h:271 | the room test `size + 1 >= capacity` is computed in uint32, so at size `UINT32_MAX` it wraps to 0, no room is made, and the store lands past the storage | an array of size `UINT32_MAX` | abort, because a uint32 size cannot count one more element | not executed | PgArrs.PgArr.AppendAsWritten | PgArrs.PgArr.Append |
| src/include/lib/stringinfo.h:229-240 | `appendStringInfoInt64` reserves `MAXINT64LEN` bytes, and `MAXINT64LEN` is `sizeof` of the unexpanded text `PG_INT64_MIN`, 13 (src/include/common/string.h:21) | a 1024-byte buffer holding 1010 bytes, appending INT64_MIN | reserve the 21 bytes of the widest value and its NUL | not executed | StringInfos.AppendInt64Overrun | StringInfos.StringInfo.AppendInt64 |
| src/include/lib/stringinfo.h:255-266 | `appendStringInfoUInt64` reserves the same 13 bytes | a 1024-byte buffer holding 1010 bytes, appending UINT64_MAX | reserve the 21 bytes of the widest value and its NUL | not executed | StringInfos.StringInfo.AppendUInt64AsWritten | StringInfos.StringInfo.AppendUInt64 |
| src/backend/access/zedstore/zedstore_visibility.c:830 | after refreshing the oldest undo pointer for a missing insert record, the non-vacuumable walk tests the delete record's own pointer instead of the insert's | an aborted delete at counter 10 whose insert at 7 is discarded; oldest 5, refreshed to 8 | test the pointer that failed to fetch, so that the tuple is live | not executed | ZedstoreVisibility.InserterRefreshAsWritten | ZedstoreVisibility.InserterRefresh |
