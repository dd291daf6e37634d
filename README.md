# czcore core, modelled in Dafny

This project models the core of the `czcore` C++ utility library and proves properties of the
model. Each source file becomes one Dafny module:

- `math.dfy` (`Math`): `isPowerOf2`, `isMultipleOf`, `roundUpToMultipleOf`, and the
  `next_pow2` loop with `round_pow2` on top of it.
- `algorithm.dfy` (`Algorithm`): the sequence and map helpers. The in-place ones (`remove`,
  `remove_if`, `remove_first_*`, `map_remove_if`) are methods on small container classes.
  The search and filter helpers are functions.
- `string_utils.dfy` (`StringUtils`): trimming and ASCII case-insensitive comparison.
  Both `replace` overloads, `changeEOL` and `stringSplitIntoLinesVector`.
  The `StringLineSplit` line iterator, a cursor whose `advance` loops are methods.
- `ini_file.dfy` (`IniFile`): sections and entries in memory.
  Name lookup, the bool and string `getValue` paths, and the bool `setValue`.
- `logging.dfy` (`Logging`): log-level names, `logLevelFromString`, `setLevel` clamping.
  Also the global category list that constructors append to, searched by `find` and updated by `setLogLevel`.
- `shared_ptr.dfy` (`SharedPointers`): the control block with its strong and weak counters, as a class.
  The handles `SharedPtr`, `WeakPtr`/`ObserverPtr` (`WeakPtrImpl`) and `SharedRef`, as classes that hold a reference to it.
  The block records, as ghost sets, which handles hold its strong and weak references; every operation states how those sets change, so other handles on the block stay valid.
- `poly_chunk_vector.dfy` (`PolyChunkVectors`): `PolyChunkVector`, a chain of chunks.
  Each chunk holds header-prefixed objects and out-of-band (OOB) bytes.
  The iterator and its `findValid` walk are included.
- `command_vector.dfy` (`CommandVectors`): `CommandVector`, a queue of commands built on `PolyChunkVector`.
- `vso_vector.dfy` (`VSOVectors`): `VSOVector`, one growable byte buffer of size-prefixed blocks addressed by `Ref` offsets.
- `wrappers.dfy` (`Wrappers`): the `Option` type.

Code that mutates state is modelled as classes with `modifies` clauses. Loops become methods
with invariants and are proved against specification functions. Pure helpers become functions
and lemmas.

The containers' memory is modelled by what has been written into it:
- a `PolyChunkVector` chunk is its capacity, its used bytes, its skip flag, and the sequence of headers written into it;
- a `VSOVector` buffer is a map from offsets to headers, plus a map of the OOB bytes copied in.

Objects are opaque values. Destroying them, running them, or handing them to a deleter is
modelled as returning them in order.

## Model

| member | source | states |
|---|---|---|
| Math.BitAnd | source/crazygaze/core/Math.h:24 | the AND of `x` and `x - 1` computed bit by bit is at most either operand |
| Math.IsPowerOf2Correct | source/crazygaze/core/Math.h:19-25 | `isPowerOf2(x)` holds exactly when x is 2^k for some k, and never for 0 |
| Math.RoundUpToMultipleOf | source/crazygaze/core/Math.h:41-53 | with b == 0 the value comes back unchanged; with b > 0 the result is a multiple of b in [a, a + b) |
| Math.RoundUpIsLeast | source/crazygaze/core/Math.h:50-52 | no multiple of b that is at least a lies below the rounded value |
| Math.RoundUpOfMultiple | source/crazygaze/core/Math.h:41-53 | a value that is already a multiple of b is returned unchanged |
| Math.RoundUpIdempotent | source/crazygaze/core/Math.h:41-53 | rounding twice gives the same as rounding once, for every b including 0 |
| Math.RoundUpIsMultiple | source/crazygaze/core/Math.h:31-53 | for a, b > 0, `isMultipleOf(roundUpToMultipleOf(a, b), b)` |
| Math.AlignedIsMod | source/crazygaze/core/Math.h:35 | the repeated-subtraction alignment test used by the containers is `x % a == 0` |
| Math.LeastPow2AboveIsLeast | source/crazygaze/core/Math.h:4-8 | the reference value is a power of two strictly above n and no power of two above n is smaller |
| Math.LeastPow2AboveBelowDouble | source/crazygaze/core/Math.h:4-8 | for n >= 1 the least power of two above n is at most 2n |
| Math.DoublingStaysBelow | source/crazygaze/core/Math.cpp:9-12 | while `result <= n`, doubling `result` cannot overshoot the least power of two above n |
| Math.NextPow2 | source/crazygaze/core/Math.cpp:6-14 | the loop returns the least power of two strictly greater than n (8 gives 16), for every n below 2^63 |
| Math.RoundPow2 | source/crazygaze/core/Math.cpp:16-21 | for n up to 2^63, the result is a power of two, at least n, no larger than any power of two that is at least n, and below 2n for n >= 1 |
| Math.RoundPow2OfZero | source/crazygaze/core/Math.cpp:18-19 | `round_pow2(0) == 1` |
| Math.RoundPow2OfPow2 | source/crazygaze/core/Math.cpp:18-21 | a nonzero power of two is returned unchanged |
| Algorithm.FindIf | source/crazygaze/core/Algorithm.h:22-26 | the index of the first element satisfying f, or none (`end()`) exactly when no element does |
| Algorithm.Find | source/crazygaze/core/Algorithm.h:13-17 | the index of the first element equal to v, or none exactly when v does not occur |
| Algorithm.ExistsIsMembership | source/crazygaze/core/Algorithm.h:28-32 | `exists(c, v)` iff v occurs in c |
| Algorithm.ExistsIfIsSomeElement | source/crazygaze/core/Algorithm.h:34-38 | `exists_if(c, f)` iff some element satisfies f |
| Algorithm.FilterAppend | source/crazygaze/core/Algorithm.h:83-85 | one more element of c adds it to the result exactly when it satisfies f |
| Algorithm.FilterMultiset | source/crazygaze/core/Algorithm.h:79-87 | the result holds every copy of each satisfying value and no copy of the others |
| Algorithm.FilterIsSubsequence | source/crazygaze/core/Algorithm.h:79-87 | the kept elements appear in their original order |
| Algorithm.FilterAllKept | source/crazygaze/core/Algorithm.h:79-87 | when every element satisfies f the result is c itself |
| Algorithm.CopyFromIf | source/crazygaze/core/Algorithm.h:79-87 | the push loop builds exactly the filtered subsequence of c |
| Algorithm.RemoveAll | source/crazygaze/core/Algorithm.h:43-49 | no element equal to v is left |
| Algorithm.RemoveAllSpec | source/crazygaze/core/Algorithm.h:43-49 | every other value keeps its multiplicity, v has none, and the order of the rest is kept |
| Algorithm.RemoveIfSpec | source/crazygaze/core/Algorithm.h:54-60 | no element satisfying f is left |
| Algorithm.RemoveIfKeepsOthers | source/crazygaze/core/Algorithm.h:54-60 | every non-matching value keeps its multiplicity and order; matching values are gone |
| Algorithm.Vector.Remove | source/crazygaze/core/Algorithm.h:43-49 | the container becomes c without v and the returned end is its new size |
| Algorithm.Vector.RemoveIf | source/crazygaze/core/Algorithm.h:54-60 | the container becomes c without the elements satisfying f and the returned end is its new size |
| Algorithm.Clip | source/crazygaze/core/Algorithm.h:89-93 | the result is in [lower, upper] when lower <= upper, is n when n is in range, and is lower whenever upper < lower (`max(lower, min(n, upper))`) |
| Algorithm.RemoveFirstUnorderedMultiset | source/crazygaze/core/Algorithm.h:99-111 | absent v changes nothing; otherwise exactly one copy of v goes (multiset minus v) and the length drops by 1 |
| Algorithm.Vector.RemoveFirstUnordered | source/crazygaze/core/Algorithm.h:99-111 | returns true iff v was present; the first v is overwritten by the old last element and the back is popped |
| Algorithm.RemoveFirstOrderedSpecProperties | source/crazygaze/core/Algorithm.h:116-126 | absent v changes nothing; otherwise exactly the first v is cut out and the rest keep their order |
| Algorithm.Vector.RemoveFirstOrdered | source/crazygaze/core/Algorithm.h:116-126 | returns true iff v was present; the vector becomes the original without its first v |
| Algorithm.Dictionary.MapRemoveIf | source/crazygaze/core/Algorithm.h:65-74 | the erase-or-step loop leaves exactly the entries not satisfying the predicate |
| Algorithm.MapWithoutSpec | source/crazygaze/core/Algorithm.h:65-74 | a key survives iff it was present and its entry fails the predicate, and it keeps its value |
| StringUtils.LTrim | source/crazygaze/core/StringUtils.h:67-73 | the result is a suffix of s; everything removed is whitespace and the result does not start with whitespace (longest whitespace prefix removed) |
| StringUtils.RTrim | source/crazygaze/core/StringUtils.h:78-84 | the result is a prefix of s; everything removed is whitespace and the result does not end with whitespace |
| StringUtils.TrimIsSlice | source/crazygaze/core/StringUtils.h:90-94 | `trim(s)` is a contiguous slice of s with only whitespace outside it and no whitespace at its edges |
| StringUtils.TrimEmptyIffAllWhitespace | source/crazygaze/core/StringUtils.h:90-94 | `trim(s)` is empty iff s is empty or all whitespace |
| StringUtils.TrimKeepsTrimmed | source/crazygaze/core/StringUtils.h:67-94 | a string without edge whitespace is left unchanged by `ltrim`, `rtrim` and `trim` |
| StringUtils.LTrimIdempotent | source/crazygaze/core/StringUtils.h:67-73 | `ltrim(ltrim(s)) == ltrim(s)` |
| StringUtils.RTrimIdempotent | source/crazygaze/core/StringUtils.h:78-84 | `rtrim(rtrim(s)) == rtrim(s)` |
| StringUtils.TrimIdempotent | source/crazygaze/core/StringUtils.h:90-94 | `trim(trim(s)) == trim(s)` |
| StringUtils.AsciiStrEqualsCi | source/crazygaze/core/StringUtils.cpp:101-127 | the loop returns true iff the lengths match and every pair of characters is equal after lower-casing 'A'..'Z' only |
| StringUtils.LowerAscii | source/crazygaze/core/StringUtils.cpp:108-111 | same length, each character mapped by the lower-casing of 'A'..'Z' |
| StringUtils.EqualsCiIsLowerEquality | source/crazygaze/core/StringUtils.cpp:101-127 | case-insensitive equality is equality of the two lower-cased strings |
| StringUtils.FindFrom | source/crazygaze/core/StringUtils.cpp:137 | a position found by `find(from, pos)` is at or after pos and the pattern occurs there |
| StringUtils.FindFromIsFirst | source/crazygaze/core/StringUtils.cpp:137-139 | the found occurrence is the leftmost one at or after pos; npos iff there is none |
| StringUtils.Replace | source/crazygaze/core/StringUtils.cpp:129-155 | the loop's result is the input with every leftmost non-overlapping occurrence of `from` replaced by `to` |
| StringUtils.ReplaceOne | source/crazygaze/core/StringUtils.cpp:146-151 | one round moves pos strictly forward and keeps "output so far + replacement of the rest" unchanged |
| StringUtils.ReplaceFromFound | source/crazygaze/core/StringUtils.cpp:146-151 | at a found occurrence the output is the text before it, then `to`, then the rest from past the match |
| StringUtils.ReplaceAbsent | source/crazygaze/core/StringUtils.cpp:139-143 | with no occurrence of `from` the input comes back unchanged |
| StringUtils.ReplaceByItself | source/crazygaze/core/StringUtils.cpp:129-155 | replacing `from` by itself gives the text back |
| StringUtils.ReplaceSameLength | source/crazygaze/core/StringUtils.cpp:129-155 | a replacement as long as the pattern keeps the length of the text |
| StringUtils.ReplaceList | source/crazygaze/core/StringUtils.cpp:157-169 | the loop computes the list semantics as written: pairs in order, an empty running result restarting from the input, an empty list giving "" |
| StringUtils.ReplaceListRestartsFromInput | source/crazygaze/core/StringUtils.cpp:162-163 | "a" with [("a", ""), ("b", "c")] gives "a" as written, where applying the pairs in order gives "" |
| StringUtils.ReplaceListCorrected | source/crazygaze/core/StringUtils.cpp:157-169 | the corrected loop applies every pair in order to the running text, starting from the input |
| StringUtils.ReplaceListIntendedComposes | source/crazygaze/core/StringUtils.cpp:157-169 | applying a list in two halves is applying the whole list |
| StringUtils.ReplaceListAgreesWhileNonEmpty | source/crazygaze/core/StringUtils.cpp:157-169 | the code as written and the intended meaning agree whenever no intermediate result is empty |
| StringUtils.LineEnd | source/crazygaze/core/StringUtils.cpp:217-226 | the scan stops at the first '\n' or '\r' at or after the position, or at the end of the text |
| StringUtils.AdvanceImplSpec | source/crazygaze/core/StringUtils.cpp:205-247 | npos and an empty line exactly when the position is npos or past the text; otherwise the position strictly advances and the line holds no '\n' or '\r' |
| StringUtils.AdvanceImplPieces | source/crazygaze/core/StringUtils.cpp:228-246 | the line is the text from the position to the line end, and what is consumed after it is "\n", "\r", "\r\n", or nothing at the end of the text |
| StringUtils.LineIterator.AdvanceImpl | source/crazygaze/core/StringUtils.cpp:205-247 | the loop sets position and current line to the values `AdvanceImplSpec` gives |
| StringUtils.AdvanceSpec | source/crazygaze/core/StringUtils.h:177-184 | `advance` reaches npos or a position of lower rank; with empty lines dropped the current line is never empty |
| StringUtils.LineIterator.Advance | source/crazygaze/core/StringUtils.h:177-184 | the loop sets position and current line to the values `AdvanceSpec` gives |
| StringUtils.LineIterator.constructor | source/crazygaze/core/StringUtils.h:135-141 | constructing at a position advances at once to the first line from there |
| StringUtils.LineIterator.Next | source/crazygaze/core/StringUtils.h:152-156 | `++` advances and the lines still to come lose exactly their first element |
| StringUtils.LinesFrom | source/crazygaze/core/StringUtils.h:177-184 | no yielded line holds '\n' or '\r', and with dropping on no yielded line is empty |
| StringUtils.DropIsFilter | source/crazygaze/core/StringUtils.h:177-184 | dropping empty lines yields exactly the non-empty lines of the full split, in order |
| StringUtils.LinesReconstructText | source/crazygaze/core/StringUtils.cpp:214-246 | keeping empty lines, each line followed by the terminator consumed after it rebuilds the text; terminators are "\n", "\r", "\r\n" except an empty last one; no line with its terminator is empty (no trailing empty line) |
| StringUtils.EmptyTextHasNoLines | source/crazygaze/core/StringUtils.cpp:207-212 | empty text yields no lines |
| StringUtils.LinesShift | source/crazygaze/core/StringUtils.cpp:205-247 | the split from a position depends only on the text from there on |
| StringUtils.SplitJoinedLines | source/crazygaze/core/StringUtils.cpp:231-246 | lines without terminators, joined by "\n" or "\r\n", split back into the same lines |
| StringUtils.StringLineSplit.Begin | source/crazygaze/core/StringUtils.h:200-203 | `begin()` starts at position 0 with all lines of the view still to come |
| StringUtils.StringLineSplit.End | source/crazygaze/core/StringUtils.h:204-207 | `end()` is at npos with nothing to come |
| StringUtils.CollectLines | source/crazygaze/core/StringUtils.h:165-168 | stepping from `begin()` with `++` until the iterator equals `end()` yields exactly the lines of the text |
| StringUtils.StringSplitIntoLinesVector | source/crazygaze/core/StringUtils.cpp:183-191 | the vector equals the lines of `StringLineSplit(text, dropEmptyLines)`, none holding '\n' or '\r' |
| StringUtils.AppendEachLine | source/crazygaze/core/StringUtils.cpp:173-180 | the loop produces every line of the split (empty lines kept) followed by the terminator |
| StringUtils.ChangeEol | source/crazygaze/core/StringUtils.cpp:171-181 | as written: lines followed by "\r\n" for Windows and by nothing for Linux |
| StringUtils.ChangeEolCorrected | source/crazygaze/core/StringUtils.cpp:171-181 | with "\n" for Linux, the output splits back into the same lines as the input |
| StringUtils.ChangeEolWindowsKeepsLines | source/crazygaze/core/StringUtils.cpp:177 | for Windows the conversion as written keeps the lines of the input |
| StringUtils.ChangeEolLinuxJoinsLines | source/crazygaze/core/StringUtils.cpp:177 | for Linux as written, "a\nb" becomes "ab", a single line |
| IniFile.ParseBoolRoundTrip | source/crazygaze/core/IniFile.h:35-38 | the text `setValue` stores for a bool parses back to that bool |
| IniFile.ParseBoolAccepts | source/crazygaze/core/IniFile.h:59-74 | false exactly for "0" and any case of "false", true exactly for "1" and any case of "true", nothing for any other text |
| IniFile.Section.TryGetEntry | source/crazygaze/core/IniFile.h:20-23 | the index of the first entry called key, or none exactly when no entry has that name; creates nothing |
| IniFile.Section.GetEntry | source/crazygaze/core/IniFile.h:25-28 | an existing entry leaves the section as it is; otherwise an empty entry called key is appended; either way `tryGetEntry` then finds it |
| IniFile.Section.GetValueString | source/crazygaze/core/IniFile.h:93-103 | true with the entry's value verbatim when the entry exists, false with `dst` untouched otherwise |
| IniFile.Section.GetValueBool | source/crazygaze/core/IniFile.h:45-75 | false with `dst` untouched when the entry is missing or its value does not parse; otherwise true with the parsed bool |
| IniFile.Section.SetValueBool | source/crazygaze/core/IniFile.h:30-38 | afterwards a bool `getValue` of key returns (true, value) whatever `dst` was, and lookups of every other key are unchanged |
| IniFile.FirstMatchAfterAppend | source/crazygaze/core/IniFile.h:25-28 | an entry appended under a new name is the first one found under that name |
| IniFile.LookupOtherKey | source/crazygaze/core/IniFile.h:30-38 | `getEntry` followed by a write to key's entry leaves every other key's lookup unchanged |
| IniFile.IniFile.TryGetSection | source/crazygaze/core/IniFile.h:115-119 | the index of the first section called name, or none exactly when no section has that name; creates nothing |
| IniFile.IniFile.GetSection | source/crazygaze/core/IniFile.h:121-125 | the sections are unchanged when name exists and gain an empty section called name at the end otherwise; either way `tryGetSection` then finds the returned index |
| IniFile.IniFile.GetValueString | source/crazygaze/core/IniFile.h:127-138 | false with `dst` untouched when the section is missing, otherwise the section's string `getValue` |
| IniFile.IniFile.GetValueBool | source/crazygaze/core/IniFile.h:127-138 | false with `dst` untouched when the section is missing, otherwise the section's bool `getValue` |
| IniFile.IniFile.SetValueBool | source/crazygaze/core/IniFile.h:140-144 | afterwards the section exists and a bool `getValue` of (section, key) returns the value stored; every other key and every other section reads as before |
| IniFile.SameNamesSameSection | source/crazygaze/core/IniFile.h:115-119 | the section lookup depends only on the sequence of section names |
| IniFile.OtherSectionsKept | source/crazygaze/core/IniFile.h:140-144 | `getSection` followed by an update of that section leaves lookups in every other section unchanged |
| Logging.Ord | source/crazygaze/core/Logging.h:9-18 | the enum's values are 0 to 6 |
| Logging.FromOrd | source/crazygaze/core/Logging.cpp:41 | `static_cast<LogLevel>(i)` is the level whose value is i |
| Logging.LevelFromString | source/crazygaze/core/Logging.cpp:35-46 | the result's table name equals s ignoring case, or the result is `Off` and no name matches; no earlier level's name matches |
| Logging.LogLevelFromString | source/crazygaze/core/Logging.cpp:35-46 | the loop over the table in enum order returns the first match, else `Off` |
| Logging.LevelNamesDistinctCi | source/crazygaze/core/Logging.cpp:24-33 | no two of the seven table names are equal ignoring case |
| Logging.LevelFromStringRoundTrip | source/crazygaze/core/Logging.cpp:151-154 | `logLevelFromString(to_string(l)) == l` for every level |
| Logging.LogCategory.constructor | source/crazygaze/core/Logging.cpp:101-119 | the level starts at `initialLevel`, the category is appended at the end of the list (so list order is construction order) and no other category's level changes |
| Logging.Registry.Append | source/crazygaze/core/Logging.cpp:107-118 | an empty list gets the category as head; otherwise it is linked after the last one; earlier categories keep their levels |
| Logging.Registry.Last | source/crazygaze/core/Logging.cpp:114-116 | the walk along `m_next` stops at the last category of the list |
| Logging.LogCategory.SetLevel | source/crazygaze/core/Logging.cpp:121-125 | the stored level is `min(compileTimeLevel, l)`; a message level is suppressed iff it is above the compile-time level or above l |
| Logging.LogCategory.IsSuppressed | source/crazygaze/core/Logging.h:78-81 | a message is dropped iff its level is above the category's; never at the category's own level or at `Off`; an `Off` category drops every other level and a `VeryVerbose` one drops nothing |
| Logging.FirstNamed | source/crazygaze/core/Logging.cpp:137-148 | the index of the first category whose name pointer equals `name`, or none exactly when there is none |
| Logging.Registry.Find | source/crazygaze/core/Logging.cpp:137-148 | the walk returns the first category with the same name pointer (identity, not text), or null |
| Logging.Registry.SetLogLevel | source/crazygaze/core/Logging.cpp:156-164 | every registered category's level becomes `min(its compileTimeLevel, l)`; the list is unchanged |
| SharedPointers.AfterIncStrong | source/crazygaze/core/SharedPtr.h:197-200 | strong goes up by one, weak is unchanged, and a consistent live block stays consistent and live |
| SharedPointers.AfterDecStrong | source/crazygaze/core/SharedPtr.h:343-360 | strong goes down by one; the deleter runs on the 1 to 0 transition only (so at most once); the object is destroyed iff strong is 0; the block is freed iff both counters are 0 |
| SharedPointers.AfterIncWeak | source/crazygaze/core/SharedPtr.h:202-205 | weak goes up by one, strong is unchanged, and an unfreed block stays consistent and unfreed |
| SharedPointers.AfterDecWeak | source/crazygaze/core/SharedPtr.h:207-215 | weak goes down by one; the object is never touched; the block is freed iff both counters are 0, so it survives while weak > 0 |
| SharedPointers.ControlBlock.constructor | source/crazygaze/core/SharedPtr.h:302-303 | a fresh block starts with strong == weak == 0, nothing destroyed and nothing freed |
| SharedPointers.ControlBlock.Obj | source/crazygaze/core/SharedPtr.h:331-341 | the object while strong > 0, null otherwise |
| SharedPointers.ControlBlock.IncStrong | source/crazygaze/core/SharedPtr.h:197-200 | the block moves to the `incStrong` state and gains the handle as a strong holder |
| SharedPointers.ControlBlock.DecStrong | source/crazygaze/core/SharedPtr.h:343-360 | the block moves to the `decStrong` state and loses the handle as a strong holder; `assert(strong > 0)` holds and the block was not freed |
| SharedPointers.ControlBlock.IncWeak | source/crazygaze/core/SharedPtr.h:202-205 | the block moves to the `incWeak` state and gains the handle as a weak holder |
| SharedPointers.ControlBlock.DecWeak | source/crazygaze/core/SharedPtr.h:207-215 | the block moves to the `decWeak` state and loses the handle as a weak holder; `assert(weak > 0)` holds and the block was not freed |
| SharedPointers.SharedPtr.Valid | source/crazygaze/core/SharedPtr.h:568-586 | a non-empty strong handle's block has strong >= 1 and is neither destroyed nor freed |
| SharedPointers.SharedPtr.constructor | source/crazygaze/core/SharedPtr.h:395-402 | the default and `nullptr` constructors give an empty handle |
| SharedPointers.SharedPtr.FromObject | source/crazygaze/core/SharedPtr.h:409-417 | constructing from a live object's pointer acquires its block with one more strong reference; null gives an empty handle |
| SharedPointers.SharedPtr.Copy | source/crazygaze/core/SharedPtr.h:424-428 | same block, exactly one more strong reference |
| SharedPointers.SharedPtr.Move | source/crazygaze/core/SharedPtr.h:436-440 | the block is taken over with the counters untouched and the source becomes empty |
| SharedPointers.SharedPtr.Release | source/crazygaze/core/SharedPtr.h:575-585 | a held reference is dropped through `decStrong` and the handle becomes empty; an empty handle does nothing |
| SharedPointers.SharedPtr.Swap | source/crazygaze/core/SharedPtr.h:525-528 | the handles exchange blocks and no counter changes |
| SharedPointers.SharedPtr.SwapDistinct | source/crazygaze/core/SharedPtr.h:525-528 | on two different blocks each block trades one holder for the other, counters unchanged |
| SharedPointers.SharedPtr.TakeFrom | source/crazygaze/core/SharedPtr.h:448-452 | the swap with a temporary and the temporary's destruction: this ends on the temporary's block, whose counters are unchanged, and the old block goes through `decStrong` |
| SharedPointers.SharedPtr.Assign | source/crazygaze/core/SharedPtr.h:448-452 | copy-and-swap: a different block gains one strong reference and this as a strong holder, and the old one loses both; on the same block (self-assignment included) counters and holders are unchanged; weak holders never change |
| SharedPointers.SharedPtr.MoveAssign | source/crazygaze/core/SharedPtr.h:462-466 | the reference is taken over with its counters unchanged, this replaces the source among the block's strong holders, the source becomes empty (unless it is this), and the old reference and holder are dropped |
| SharedPointers.SharedPtr.Get | source/crazygaze/core/SharedPtr.h:482-492 | the object of the block, or null for an empty handle |
| SharedPointers.SharedPtr.IsSet | source/crazygaze/core/SharedPtr.h:500-503 | `operator bool` is true iff `get()` is non-null |
| SharedPointers.SharedPtr.UseCount | source/crazygaze/core/SharedPtr.h:505-508 | 0 for an empty handle, the block's strong count otherwise |
| SharedPointers.SharedPtr.WeakUseCount | source/crazygaze/core/SharedPtr.h:510-513 | 0 for an empty handle, the block's weak count otherwise |
| SharedPointers.SharedPtr.Unique | source/crazygaze/core/SharedPtr.h:515-518 | `unique()` iff the handle is non-empty and its block has exactly one strong reference |
| SharedPointers.UniqueIffSoleHolder | source/crazygaze/core/SharedPtr.h:515-518 | for a valid handle, `unique()` iff it is the only strong holder of its block |
| SharedPointers.SharedPtr.ToSharedRef | source/crazygaze/core/SharedPtr.h:531-535 | for a non-empty handle, a `SharedRef` on the same object with one more strong reference, whose handle joins the strong holders |
| SharedPointers.MakeShared | source/crazygaze/core/SharedPtr.h:972-978 | a new block and object held by one non-empty handle with `use_count() == 1` and `weak_use_count() == 0` |
| SharedPointers.StaticPointerCast | source/crazygaze/core/SharedPtr.h:980-984 | a new handle equal to the source (same object) with one more strong reference, joining the strong holders |
| SharedPointers.StaticPointerCastMove | source/crazygaze/core/SharedPtr.h:986-991 | the rvalue overload: the source ends empty, the result holds its block in its place among the strong holders, and the counters end as they began |
| SharedPointers.Equal | source/crazygaze/core/SharedPtr.h:993-1009 | `operator==` iff both handles are on the same block (same object); against `nullptr` iff the handle is empty |
| SharedPointers.EqualSharesCounts | source/crazygaze/core/SharedPtr.h:993-997 | equal valid handles report the same use and weak counts and are both strong holders of the block |
| SharedPointers.WeakPtrImpl.Valid | source/crazygaze/core/SharedPtr.h:758-776 | a non-empty weak handle's block has weak >= 1 and is not freed |
| SharedPointers.WeakPtrImpl.constructor | source/crazygaze/core/SharedPtr.h:599 | the default constructor gives an empty handle |
| SharedPointers.WeakPtrImpl.Copy | source/crazygaze/core/SharedPtr.h:601-611 | same block, exactly one more weak reference |
| SharedPointers.WeakPtrImpl.FromShared | source/crazygaze/core/SharedPtr.h:613-618 | the block of the `SharedPtr` with one more weak reference |
| SharedPointers.WeakPtrImpl.Move | source/crazygaze/core/SharedPtr.h:620-623 | the block is taken over with the counters untouched and the source becomes empty |
| SharedPointers.WeakPtrImpl.Release | source/crazygaze/core/SharedPtr.h:765-775 | a held reference is dropped through `decWeak` and the handle becomes empty; an empty handle does nothing |
| SharedPointers.WeakPtrImpl.Swap | source/crazygaze/core/SharedPtr.h:672-675 | the handles exchange blocks and no counter changes |
| SharedPointers.WeakPtrImpl.SwapDistinct | source/crazygaze/core/SharedPtr.h:672-675 | on two different blocks each block trades one holder for the other, counters unchanged |
| SharedPointers.WeakPtrImpl.TakeFrom | source/crazygaze/core/SharedPtr.h:637-641 | the swap with a temporary and its destruction: this ends on the temporary's block and the old block goes through `decWeak` |
| SharedPointers.WeakPtrImpl.Reset | source/crazygaze/core/SharedPtr.h:667-670 | the handle becomes empty, and a held reference goes through `decWeak` and leaves the weak holders |
| SharedPointers.WeakPtrImpl.Assign | source/crazygaze/core/SharedPtr.h:637-649 | copy-and-swap: a different block gains one weak reference and this as a weak holder, and the old one loses both; the same block is left as it was; strong holders never change |
| SharedPointers.WeakPtrImpl.AssignShared | source/crazygaze/core/SharedPtr.h:651-657 | as `Assign`, from a `SharedPtr`'s block |
| SharedPointers.WeakPtrImpl.MoveAssign | source/crazygaze/core/SharedPtr.h:659-665 | the reference is taken over, this replaces the source among the weak holders, the source becomes empty (unless it is this), and the old reference and holder are dropped |
| SharedPointers.WeakPtrImpl.UseCount | source/crazygaze/core/SharedPtr.h:677-680 | 0 for an empty handle, the block's strong count otherwise |
| SharedPointers.WeakPtrImpl.WeakUseCount | source/crazygaze/core/SharedPtr.h:682-685 | 0 for an empty handle, the block's weak count otherwise |
| SharedPointers.WeakPtrImpl.Expired | source/crazygaze/core/SharedPtr.h:687-690 | `expired()` iff `use_count() == 0` |
| SharedPointers.WeakPtrImpl.Lock | source/crazygaze/core/SharedPtr.h:696-707 | while strong > 0, a `SharedPtr` on the same object with strong one higher, which joins the strong holders; otherwise an empty `SharedPtr` and no change to counters or holders |
| SharedPointers.WeakPtrImpl.TryGet | source/crazygaze/core/SharedPtr.h:712-727 | while strong > 0, the object with nothing changed; otherwise null, the handle becomes empty, and its weak reference goes through `decWeak` and leaves the weak holders (so later calls return null) |
| SharedPointers.SharedRef.FromShared | source/crazygaze/core/SharedPtr.h:811-816 | built from a non-empty `SharedPtr` (the CZ_CHECK), same object, one more strong reference, the new handle among the strong holders |
| SharedPointers.SharedRef.FromSharedMove | source/crazygaze/core/SharedPtr.h:818-823 | takes over a non-empty `SharedPtr`'s reference, counters unchanged, the new handle replacing the source among the strong holders, the source emptied |
| SharedPointers.SharedRef.Copy | source/crazygaze/core/SharedPtr.h:825-861 | copy and move construction both copy: same object, strong one higher, the new handle among the strong holders, the source left non-empty |
| SharedPointers.SharedRef.Assign | source/crazygaze/core/SharedPtr.h:889-914 | copy and move assignment both copy: this ends on other's block and stays non-empty, with the `SharedPtr` assignment's counter and holder changes |
| SharedPointers.SharedRef.Get | source/crazygaze/core/SharedPtr.h:928-931 | never null, and the object is alive (strong >= 1, not destroyed, not freed) |
| SharedPointers.SharedRef.UseCount | source/crazygaze/core/SharedPtr.h:935-938 | the underlying handle's count, which is at least 1 |
| SharedPointers.SharedRef.Unique | source/crazygaze/core/SharedPtr.h:940-943 | `unique()` iff the object has exactly one strong reference |
| SharedPointers.SharedRef.ToSharedPtr | source/crazygaze/core/SharedPtr.h:946-949 | the underlying handle, which is non-empty |
| SharedPointers.SharedRef.Swap | source/crazygaze/core/SharedPtr.h:959-962 | the two exchange objects, both stay non-empty, no counter changes, and each handle takes the other's place among the strong holders |
| SharedPointers.MakeSharedRef | source/crazygaze/core/SharedPtr.h:1022-1026 | a new non-empty `SharedRef` with use count 1, its handle the block's only holder |
| SharedPointers.StaticPointerCastRef | source/crazygaze/core/SharedPtr.h:1029-1036 | a new `SharedRef` equal to the source with one more strong reference, its handle among the strong holders; the temporary cast handle leaves no trace |
| SharedPointers.StaticPointerCastRefMove | source/crazygaze/core/SharedPtr.h:1038-1045 | the rvalue overload copies: the source keeps its reference, and the result is as for the lvalue overload |
| SharedPointers.EqualRef | source/crazygaze/core/SharedPtr.h:1049-1053 | `operator==` on `SharedRef`s iff both are on the same block (same object) |
| SharedPointers.ReassignExpiresWeak | source/crazygaze/core/SharedPtr.h:448-452 | assigning the only strong handle to another object expires a weak handle on the old one, which stays valid with weak count 1 |
| SharedPointers.LockSharesOwnership | source/crazygaze/core/SharedPtr.h:696-707 | `lock()` on a live object gives a second valid handle on it (use count 2) and leaves the original and the weak handle valid |
| SharedPointers.TryGetExpiredLeavesOthers | source/crazygaze/core/SharedPtr.h:712-727 | `tryGet()` on an expired object returns null and empties that observer, and another observer of the block stays valid with weak count 1 |
| SharedPointers.CopySharedRef | source/crazygaze/core/SharedPtr.h:825-861 | copying a new `SharedRef` gives two valid references to the same object with use count 2 |
| PolyChunkVectors.AppendEmptyChunk | source/crazygaze/core/PolyChunkVector.h:478-480 | a fresh chunk linked behind the chain changes no element and is a valid tail |
| PolyChunkVectors.ObjectsOfChunks | source/crazygaze/core/PolyChunkVector.h:319-324 | when every visited header of every chunk has an object behind it, every element is an object |
| PolyChunkVectors.ElementsUpToTail | source/crazygaze/core/PolyChunkVector.h:483-489 | with every chunk after the tail empty, the elements are those of the chunks up to and including the tail |
| PolyChunkVectors.ElementsFromStart | source/crazygaze/core/PolyChunkVector.h:391-397 | iterating from offset 0 of the head yields exactly the container's elements |
| PolyChunkVectors.ChunkElemsAppend | source/crazygaze/core/PolyChunkVector.h:426-428 | a header written at the end of a chunk contributes what lies behind it as the chunk's last element |
| PolyChunkVectors.ClearedAllEmpty | source/crazygaze/core/PolyChunkVector.h:284-285 | a chain after the clearing loop holds no element and no used byte, with its total capacity unchanged |
| PolyChunkVectors.ClearedAllOk | source/crazygaze/core/PolyChunkVector.h:291-293 | the cleared chain with the head as tail, no last header and no element satisfies the container invariant |
| PolyChunkVectors.UsedWithinCap | source/crazygaze/core/PolyChunkVector.h:231-242 | the used bytes summed over the chain never exceed the summed capacities |
| PolyChunkVectors.FreeChunkKeepsState | source/crazygaze/core/PolyChunkVector.h:451-481 | the step of `getFreeChunk` keeps the invariant and the elements, leaves an empty tail of at least the requested capacity, only extends the chain, by one chunk of exactly that capacity when no later chunk was big enough |
| PolyChunkVectors.PushKeepsState | source/crazygaze/core/PolyChunkVector.h:426-428 | a header and object written at the end of the tail keep the invariant, set the last header and add exactly that object as the last element |
| PolyChunkVectors.GrowKeepsState | source/crazygaze/core/PolyChunkVector.h:150-156 | adding aligned OOB bytes to the last header's stride keeps the invariant and every element |
| PolyChunkVectors.OobKeepsState | source/crazygaze/core/PolyChunkVector.h:157-161 | a flagged OOB header at the start of the empty tail keeps the invariant and every element |
| PolyChunkVectors.OobFill | source/crazygaze/core/PolyChunkVector.h:157-161 | writing and flagging the OOB header in the tail that `getSpace` emptied keeps the invariant and the elements |
| PolyChunkVectors.PushNeverMoves | source/crazygaze/core/PolyChunkVector.h:25 | writing a new header at the end of a chunk of a chain that only grew leaves every earlier header at its offset with the same object behind it |
| PolyChunkVectors.GrowNeverMoves | source/crazygaze/core/PolyChunkVector.h:25 | growing the last stride leaves every header at its offset with the same object behind it |
| PolyChunkVectors.FillNeverMoves | source/crazygaze/core/PolyChunkVector.h:25 | filling an empty chunk of a chain that only grew moves no earlier header |
| PolyChunkVectors.HeaderAtOffset | source/crazygaze/core/PolyChunkVector.h:351-354 | reading the header at the byte offset of the k-th header (the sum of the strides before it) finds the k-th header |
| PolyChunkVectors.OffsetInUse | source/crazygaze/core/PolyChunkVector.h:372-382 | the offset of the i-th header is below `usedCap` exactly when there is an i-th header, and is 0 exactly for the first |
| PolyChunkVectors.ElementsFromStep | source/crazygaze/core/PolyChunkVector.h:326-332 | from a header treated as an element, iteration yields that element and then what follows the next header |
| PolyChunkVectors.ElementsFromNext | source/crazygaze/core/PolyChunkVector.h:382-386 | past the last header of a chunk, iteration yields what the next chunk yields from its start |
| PolyChunkVectors.DestroyObjects | source/crazygaze/core/PolyChunkVector.h:268-282 | walking the headers of a well laid out chunk by their strides, skipping the flagged first header, destroys exactly the chunk's elements in iteration order |
| PolyChunkVectors.StrLen | source/crazygaze/core/PolyChunkVector.h:223 | the result indexes a null byte and no byte before it is null |
| PolyChunkVectors.PolyChunkVector.constructor | source/crazygaze/core/PolyChunkVector.h:91 | a new container holds no chunk, no element and no OOB data |
| PolyChunkVectors.PolyChunkVector.Size | source/crazygaze/core/PolyChunkVector.h:247-250 | the count kept in the container is the number of elements iteration yields |
| PolyChunkVectors.PolyChunkVector.SpaceStepKeepsState | source/crazygaze/core/PolyChunkVector.h:412-425 | after the first half of `getSpace` the tail has room for the header, the invariant and the elements are kept, the chain only grew, and a tail that had no room is replaced by an empty one |
| PolyChunkVectors.PolyChunkVector.GetFreeChunk | source/crazygaze/core/PolyChunkVector.h:451-481 | the tail becomes an empty chunk of at least the rounded capacity (an existing later one when big enough, else a new one), the last header is cleared, the elements stay |
| PolyChunkVectors.PolyChunkVector.GetSpace | source/crazygaze/core/PolyChunkVector.h:412-430 | a header of `sizeof(Header) + size` bytes is written at the end of the tail after the free-chunk step, becomes the last header, and the returned pointer is right behind it |
| PolyChunkVectors.PolyChunkVector.EmplaceBack | source/crazygaze/core/PolyChunkVector.h:122-134 | the object is the new last element and the count grows by one, it lands on an aligned offset ending the used part of the tail, and no earlier header moves |
| PolyChunkVectors.PolyChunkVector.EmplaceKeepsState | source/crazygaze/core/PolyChunkVector.h:128-131 | the header and object written behind the step of `getSpace` keep the invariant and append exactly that object |
| PolyChunkVectors.PolyChunkVector.EmplacePlaced | source/crazygaze/core/PolyChunkVector.h:128-129 | the object's offset is aligned and ends the used part of the tail, and no header of the old chain moved |
| PolyChunkVectors.PolyChunkVector.GrowLast | source/crazygaze/core/PolyChunkVector.h:150-156 | the OOB bytes extend the last header's stride in place, the tail stays, the elements stay, the pointer is aligned and ends the used part |
| PolyChunkVectors.PolyChunkVector.OobHeader | source/crazygaze/core/PolyChunkVector.h:157-161 | the OOB bytes sit behind a flagged first header of an empty tail chosen as `getSpace` chooses, the elements stay and no earlier header moves |
| PolyChunkVectors.PolyChunkVector.OobTailEmpty | source/crazygaze/core/PolyChunkVector.h:150-161 | when the OOB bytes do not fit behind the last header, the free-chunk step leaves an empty tail with room for them |
| PolyChunkVectors.PolyChunkVector.OobHeaderKeepsState | source/crazygaze/core/PolyChunkVector.h:159-160 | the flagged OOB header keeps the invariant and the elements |
| PolyChunkVectors.PolyChunkVector.OobHeaderPlaced | source/crazygaze/core/PolyChunkVector.h:159-160 | the OOB bytes start right behind the first header of the tail, which holds nothing else, and no earlier header moves |
| PolyChunkVectors.PolyChunkVector.ReserveOOB | source/crazygaze/core/PolyChunkVector.h:142-165 | 0 bytes give a null pointer and no change; otherwise the size rounded up to the alignment is merged into the last stride when it fits, else placed behind a skipped header; the pointer is aligned, elements and count stay, nothing moves |
| PolyChunkVectors.PolyChunkVector.PushOOB | source/crazygaze/core/PolyChunkVector.h:175-182 | no bytes give a null pointer and no change; otherwise the bytes are copied to where `reserveOOB` points, elements and count unchanged |
| PolyChunkVectors.PolyChunkVector.PushOOBString | source/crazygaze/core/PolyChunkVector.h:193-212 | the characters plus a null terminator are copied out of band, and the view returned has the string's length |
| PolyChunkVectors.PolyChunkVector.PushOOBCString | source/crazygaze/core/PolyChunkVector.h:221-224 | the characters up to and including the first null byte are copied out of band at an aligned offset |
| PolyChunkVectors.PolyChunkVector.CalcCapacity | source/crazygaze/core/PolyChunkVector.h:231-242 | the two results are the used bytes and the capacities summed over the whole chain, the first at most the second |
| PolyChunkVectors.PolyChunkVector.Clear | source/crazygaze/core/PolyChunkVector.h:263-304 | every element is destroyed in iteration order, every chunk is emptied, the tail is the head, the count is 0; with a non-zero reset the chain is kept if it is one big enough chunk, else becomes one fresh chunk |
| PolyChunkVectors.PolyChunkVector.ResetChain | source/crazygaze/core/PolyChunkVector.h:295-303 | an emptied chain that is one chunk of at least the requested bytes is kept, any other is replaced by one empty chunk of that capacity |
| PolyChunkVectors.PolyChunkVector.ClearChunks | source/crazygaze/core/PolyChunkVector.h:265-290 | every chunk from the head on is cleared, and the objects destroyed are the elements in iteration order |
| PolyChunkVectors.PolyChunkVector.DeleteAllChunks | source/crazygaze/core/PolyChunkVector.h:436-449 | with no element and no used byte, the chain becomes empty and the tail and last header null |
| PolyChunkVectors.PolyChunkVector.Swap | source/crazygaze/core/PolyChunkVector.h:114-120 | the two containers exchange chains, tails, last headers, counts and so their elements |
| PolyChunkVectors.PolyChunkVector.Move | source/crazygaze/core/PolyChunkVector.h:101-104 | the new container takes over the other's chain and count; the other is left valid and empty |
| PolyChunkVectors.PolyChunkVector.MoveAssign | source/crazygaze/core/PolyChunkVector.h:106-112 | the old elements are destroyed, the other's state is taken over and the other is left empty; assigning to itself leaves the container empty |
| PolyChunkVectors.PolyChunkVector.Destroy | source/crazygaze/core/PolyChunkVector.h:93-97 | the destructor destroys every element in iteration order and frees every chunk |
| PolyChunkVectors.PolyChunkVector.FindValid | source/crazygaze/core/PolyChunkVector.h:356-388 | from any position the iterator stops at the end or on the first header with an element, and what is left to iterate is unchanged |
| PolyChunkVectors.PolyChunkVector.FindStep | source/crazygaze/core/PolyChunkVector.h:364-387 | one loop round either stops at the end or on an element, or strictly lowers the distance to the end, leaving what is left to iterate unchanged |
| PolyChunkVectors.PolyChunkVector.StopsOnElement | source/crazygaze/core/PolyChunkVector.h:372-375 | an in-use header that is not the flagged first one is an element |
| PolyChunkVectors.PolyChunkVector.SkipFirstHeader | source/crazygaze/core/PolyChunkVector.h:374-377 | the flagged first header is stepped over by its stride to the second header without skipping any element |
| PolyChunkVectors.PolyChunkVector.NextChunk | source/crazygaze/core/PolyChunkVector.h:382-386 | past the used part the iterator moves to the start of the next chunk, or to the end after the last one, skipping no element |
| PolyChunkVectors.PolyChunkVector.Begin | source/crazygaze/core/PolyChunkVector.h:391-397 | `begin()` is the end or on an element, and iterating from it yields all the elements |
| PolyChunkVectors.PolyChunkVector.Deref | source/crazygaze/core/PolyChunkVector.h:319-324 | dereferencing an iterator on an element gives the first element left to iterate, an object |
| PolyChunkVectors.PolyChunkVector.Next | source/crazygaze/core/PolyChunkVector.h:326-332 | `++` moves to the end or to the next element, and exactly one element fewer is left to iterate |
| PolyChunkVectors.PolyChunkVector.SamePosition | source/crazygaze/core/PolyChunkVector.h:334-337 | two iterators on elements compare equal exactly when they are on the same header |
| CommandVectors.CommandVector.constructor | source/crazygaze/core/PolyChunkVector.h:562-566 | a new queue is empty; a non-zero capacity allocates exactly one chunk of that capacity rounded as `getFreeChunk` rounds it |
| CommandVectors.CommandVector.Push | source/crazygaze/core/PolyChunkVector.h:571-576 | the command is appended as the last one and the count grows by one |
| CommandVectors.CommandVector.CalcCapacity | source/crazygaze/core/PolyChunkVector.h:584-587 | the result is the used bytes summed over the chain, at most its total capacity |
| CommandVectors.CommandVector.ExecuteAll | source/crazygaze/core/PolyChunkVector.h:595-602 | every command is run once, in push order, none is removed, and the result is how many there are |
| CommandVectors.CommandVector.RunNext | source/crazygaze/core/PolyChunkVector.h:597-600 | one loop round runs the first command left and leaves the iterator on the rest |
| CommandVectors.CommandVector.Clear | source/crazygaze/core/PolyChunkVector.h:615-618 | every command is destroyed in push order and the queue is left empty |
| CommandVectors.CommandVector.Size | source/crazygaze/core/PolyChunkVector.h:623-626 | the count is the number of commands pushed since the last clear |
| VSOVectors.UnsetRef | source/crazygaze/core/VSOVector.h:41-58 | a default `Ref` is not set |
| VSOVectors.BlockSizeRoundsUp | source/crazygaze/core/VSOVector.h:214-221 | the block `push_back` writes is the wrapper size plus the extra bytes rounded up to the wrapper's alignment |
| VSOVectors.GrowCapacity | source/crazygaze/core/VSOVector.h:397-413 | for `uint32_t` operands, the capacity `grow` should choose is a power of two that holds the used and required bytes and is less than twice their sum |
| VSOVectors.GrowAsWrittenTruncates | source/crazygaze/core/VSOVector.h:399 | between 2^31 and 2^32 bytes needed, the capacity as written is 0 though the bytes needed are positive, where the intended one is 2^32 |
| VSOVectors.BelowUsed | source/crazygaze/core/VSOVector.h:131-136 | every object of the block chain starts below the end of the used part |
| VSOVectors.Increasing | source/crazygaze/core/VSOVector.h:131-136 | objects pushed later lie at larger offsets |
| VSOVectors.AtEndIffDone | source/crazygaze/core/VSOVector.h:294-302 | stepping through the blocks reaches `end()` exactly after the last object |
| VSOVectors.PushChain | source/crazygaze/core/VSOVector.h:229-231 | a block appended at the end of the used part extends the chain, with its object as the last one |
| VSOVectors.OobSize | source/crazygaze/core/VSOVector.h:259 | the OOB bytes reserved cover `count * sizeof(T)`, are a multiple of the header size and exceed it by less than one header |
| VSOVectors.ExtendChain | source/crazygaze/core/VSOVector.h:266-270 | extending the last block and the used part by the same bytes keeps the chain |
| VSOVectors.ResizeKeepsObjects | source/crazygaze/core/VSOVector.h:269 | changing a block's size leaves every object in place |
| VSOVectors.VSOVector.constructor | source/crazygaze/core/VSOVector.h:151 | the default container has no buffer, no capacity, no object and no OOB data |
| VSOVectors.VSOVector.WithCapacity | source/crazygaze/core/VSOVector.h:161-165 | the container owns a buffer of exactly the given capacity, none of it used |
| VSOVectors.VSOVector.GetFreeCapacity | source/crazygaze/core/VSOVector.h:368-371 | used plus free capacity is the capacity: the unsigned subtraction never wraps |
| VSOVectors.VSOVector.GetNumElements | source/crazygaze/core/VSOVector.h:289-292 | the count is the number of objects iteration yields |
| VSOVectors.VSOVector.Grow | source/crazygaze/core/VSOVector.h:397-413 | the new buffer has the power-of-two capacity of `GrowCapacity`, room for the required bytes, and every header, OOB byte and reference stays at its offset |
| VSOVectors.VSOVector.PushBack | source/crazygaze/core/VSOVector.h:209-241 | the object becomes the last one at the old end of the used part, in a block of the rounded size; `m_first` is set on the first push, `m_last` always; the buffer grows exactly when the block does not fit |
| VSOVectors.VSOVector.WriteBlock | source/crazygaze/core/VSOVector.h:229-240 | the header is written at the old end of the used part, the object appended and the references linked, with the capacity unchanged |
| VSOVectors.VSOVector.PushKeepsValid | source/crazygaze/core/VSOVector.h:229-240 | the container after the block is written keeps its invariant, and its objects gain exactly the new one |
| VSOVectors.VSOVector.OobPushBackEmpty | source/crazygaze/core/VSOVector.h:253-273 | the rounded OOB size is reserved at the old end of the used part, the last object's block is extended over it, and the objects stay |
| VSOVectors.VSOVector.ExtendUsed | source/crazygaze/core/VSOVector.h:265-272 | with room in the buffer, the used part and the last block grow by the same bytes and the objects stay |
| VSOVectors.VSOVector.OobKeepsValid | source/crazygaze/core/VSOVector.h:265-270 | the container after the used part and the last block are extended keeps its invariant and its objects |
| VSOVectors.VSOVector.OobPushBack | source/crazygaze/core/VSOVector.h:280-287 | the bytes are copied at the returned offset, inside the used part, with the objects and the references unchanged |
| VSOVectors.VSOVector.Begin | source/crazygaze/core/VSOVector.h:294-297 | `begin()` is the first object's offset, or the end when there is none |
| VSOVectors.VSOVector.FirstSetIffObjects | source/crazygaze/core/VSOVector.h:234-239 | `m_first` and `m_last` are set exactly when an object has been pushed |
| VSOVectors.VSOVector.Increment | source/crazygaze/core/VSOVector.h:131-136 | advancing by the header's size reaches the next object, and reaches `end()` exactly from the last one |
| VSOVectors.VSOVector.At | source/crazygaze/core/VSOVector.h:304-307 | at the offset of the j-th object lies, inside the used part, the j-th object pushed |
| VSOVectors.VSOVector.Next | source/crazygaze/core/VSOVector.h:343-346 | `next` gives the next object's `Ref`, and equals `endRef()` exactly after the last |
| VSOVectors.VSOVector.EndRef | source/crazygaze/core/VSOVector.h:353-356 | `endRef()` is a set `Ref` |
| VSOVectors.VSOVector.BeginRefIsFirst | source/crazygaze/core/VSOVector.h:348-351 | `beginRef()` is the first object, and agrees with `begin()`, exactly when no OOB data was pushed before it |
| VSOVectors.VSOVector.RefToIterator | source/crazygaze/core/VSOVector.h:309-318 | `iteratorToRef` undoes `refToIterator` on every set `Ref` |
| VSOVectors.VSOVector.Clear | source/crazygaze/core/VSOVector.h:195-201 | every object, OOB byte and reference is forgotten; the buffer and its capacity stay |
| VSOVectors.VSOVector.ClearWith | source/crazygaze/core/VSOVector.h:177-193 | with a buffer, every object is handed to the deleter in iteration order and the container is emptied; without one nothing changes |

## Left out

- Integer widths: `size_t` and `uint32_t` quantities are unbounded `nat`s. Overflow is modelled only for `VSOVector::grow`'s truncating cast (see Findings). `VSOVectors.VSOVector.PushBack`, `VSOVectors.VSOVector.OobPushBackEmpty`, `VSOVectors.VSOVector.OobPushBack` and the helpers `VSOVectors.VSOVector.WriteBlock` and `VSOVectors.VSOVector.ExtendUsed` require the new used capacity to stay below `UINT32_MAX` instead of modelling `m_usedCapacity` wrapping.
- Math.NextPow2: requires n < 2^63. For larger n the 64-bit doubling wraps to 0 and the source loops forever.
- Math.RoundPow2: requires n <= 2^63. Above that, n is not a power of two, `next_pow2` never returns, and the source loops forever.
- `operator<=>` on `SharedPtr` and `SharedRef` (SharedPtr.h:1012-1016 and 1055-1059): it orders handles by object address, and the model's objects carry identity but no address order.
- StringUtils.Replace: requires a non-empty `from`. With an empty one the source never advances and does not terminate.
- PolyChunkVectors.PolyChunkVector.EmplaceBack: requires the object size to be a multiple of the alignment. C++ guarantees this for any type aligned like the base type, so the size is a parameter, not a type.
- CommandVectors.CommandVector.Push: requires the wrapper size to be a non-zero multiple of the pointer size. This holds for any `CmdWrapper` on a 64-bit target.
- SharedPointers.SharedRef.FromShared: requires a non-empty `SharedPtr`. The source checks this with `CZ_CHECK`, and a failed check is treated as a precondition violation.
- `PolyChunkVector` chunk identity: the `next` pointers and the `Chunk` objects are modelled as positions in a sequence of chunk states. Pointers into chunks are (chunk index, byte offset) pairs, so address arithmetic and aliasing between chunks are not modelled.
- `POLYCHUNKVECTOR_CLEARMEM` poisoning, `malloc`/`free` and placement `new` are left out. So are the raw-memory recovery of the control block from an object address and the 0xDD poisoning in `SharedPtr.h`. A block is a reference, and poisoning is the `destroyed` flag.
- Virtual dispatch is left out: polymorphic destructors, the `CmdWrapper` adapter, `ObjWrapper::operator=`'s copy of the vtable, and the `as`/`atAs`/`oobAtAs` casts. Payloads are opaque values, and destruction, execution and deleter calls are recorded in order.
- `VSOVector::emplace_back` is `push_back` with no extra bytes and is covered by `PushBack`. `oobAt` returns a raw pointer, which is not modelled. Its bound `ref.pos < usedCapacity` is the one stated by `OobPushBack`.
- `getHeaderSize`, `getCapacity` and `getUsedCapacity` are plain field reads, modelled without a contract.
- The `PV v(capacity)` constructor used by the unit tests is not in the header. `CommandVector`'s constructor models the same thing as default construction followed by `clear(capacity)`.
- `SharedPtrTrace` and the other stack-trace diagnostics depend on `std::stacktrace`, clocks and a list type that is not part of this model.
- `File.h`/`File.cpp` (file I/O), `LogOutputs` (logging sinks with mutexes and an async queue), `ThreadingUtils.h` (concurrency) and `Misc` (platform allocators and a smart-pointer comparator) are not part of this model.
- `logMessage` and `doDebugBreak` are left out: clock formatting, output dispatch and debugger traps. The `CZ_LOG`/`CZ_CHECK` macros are left out too.
- The UTF conversions (`widen`, `narrow`, `utf16to8_lenient`, `isValidUtf16_Impl`) depend on a UTF library that is not part of this model. `string_hash` wraps `std::hash`.
- `IniFile` numeric `getValue`/`setValue` go through `std::istringstream`/`std::to_string`, which are library behaviour and are left out. `open`, `try_open` and `save` are file I/O in `IniFile.cpp`, which is not part of this model.
- `tryGetEntry`, `getEntry`, `tryGetSection` and `getSection` are defined in `IniFile.cpp`. They are modelled from their declarations' documentation: the first entry or section with that name, and the `get` forms append one when it is missing.
- The `PV_benchmark` test measures timing, not behaviour.

## Findings

| source | as written | input that shows it | evidently intended | confidence | as-written member | corrected member |
|---|---|---|---|---|---|---|
| source/crazygaze/core/StringUtils.cpp:177 | `changeEOL` with `EOL::Linux` appends `"\0A"`. That is an empty C string, so nothing is appended. | "a\nb" converted to Linux line endings gives "ab" | append "\n" after every line, as the Windows branch appends "\r\n" | not executed | StringUtils.ChangeEolLinuxJoinsLines | StringUtils.ChangeEolCorrected |
| source/crazygaze/core/StringUtils.cpp:162-163 | `replace(input, list)` restarts from the original input whenever the result so far is empty. So a pair that empties the text is undone by the next pair. | "a" with [("a", ""), ("b", "c")] gives "a" | every pair applied to the result of the previous ones, giving "" | not executed | StringUtils.ReplaceListRestartsFromInput | StringUtils.ReplaceListIntendedComposes |
| source/crazygaze/core/VSOVector.h:399 | `grow` casts `round_pow2(used + required)` to `uint32_t`. Once more than 2^31 bytes are needed, the power of two is 2^32 and becomes 0. | 2^31 bytes in use and 8 more required | a capacity that holds the bytes, or a failure | not executed | VSOVectors.GrowAsWrittenTruncates | VSOVectors.GrowCapacity |
