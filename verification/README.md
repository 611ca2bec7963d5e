# hibr: proofs about its hard parts

hibr is a shell that carries its own compression, pattern matching, arithmetic, text formats and memory
management, written in C with nothing linked but libc. This project models the parts where a small slip would
go unnoticed longest and proves what they are for.

**Compression.** `mods/deflate.c` and `mods/inflate.c` are a complete encoder and decoder of RFC 1951. The
encoder is modelled as it runs: hash chains in `head` and a wrapping `prev`, symbols collected greedily, Huffman
lengths by repeated scans of a heap array with counts halved when the tree is too deep, canonical codes in 16-bit
arithmetic, run-length coded code lengths, the cheaper of a stored and a dynamic block, a bit buffer. So is the
decoder, whose specification `InflateSpec.Inflate` says what every byte string stands for. The two meet in
`Stream`: what it is for blocks to stand for a text. `Deflater.DefRaw` writes such blocks, and
`RoundTrip.InflateUndoes` reads any such blocks back. On top are the zlib and gzip containers with their
checksums, and `mods/png.c` with its scanline filters.

**Patterns.** `gmatch` decides a declarative relation, and the shortcuts of `xtrim`, `xfind`, `xrepl` and
`xrepl_a` are shown to change no answer, with one exception: `glast` takes the `]` that closes a bracket such as
`[A-\]` for an escaped character, and `xtrim` then looks for a literal `]`. `Trimming.TrimExact` says exactly for
which patterns that is, `Trimming.IsMisread` decides it, and `Trimming.MisreadExample` gives one.

**Arithmetic.** The `ax_*` functions parse and evaluate at once. They are modelled as a class with the same
fields, proved equal to a functional parser on every text, and that parser is proved to give the meaning of any
expression tree that was printed with the parentheses it needs.

**Printers and parsers.** Three shell quoters against the lexer, JSON emitter against parser, CSV writer against
reader: each pair is proved to undo, over all values.

**Mutable structures.** The open-addressing function index answers as a map over every run of commands; `read`
in blocks does what `read` byte by byte does; the arena is a list of independent buffers with marks.

The modules follow the source: each algorithm is a class or a method over arrays where the source changes things
in place, next to the function that says what it computes, and the theorems are about that function. `Bits`,
`Int64`, `CText` and `Decimal` hold what several of them share. The modules ending in `Laws` say what the
specifications mean in terms of the characters and standards themselves: precedence by the operators' groups,
classes by their characters, checksums by their polynomial, so that a table both a printer and a parser go by
cannot be wrong unnoticed. `dafny verify dfyconfig.toml` checks everything.

Where the code and its comments disagree, the code is followed:

- `mods/inflate.h:14` says a ceiling of 0 means none; `mods/inflate.c:36` treats every ceiling literally, so the
  round trip asks for a ceiling no smaller than the text.
- `mods/inflate.c:151-169` skips the complement of a stored block's length, and the containers check no checksum.
- `src/mem.c:299` says a reset keeps the newest block; the loop keeps the one linked first, which is the newest
  only when it is alone (`Arena.ResetKeeps`, `Arena.ResetExample`).
- `src/expand.c:442-457` misreads the patterns described above.

## Model

| member | source | states |
|---|---|---|
| Deflater.DefRaw | mods/deflate.c:545-606 | for every input shorter than 2^31 bytes, what is appended is a sequence of well-formed blocks, the last one marked, standing for exactly that input, and for n > 0 bytes takes at most 8n + 42*(n/16384 + 1) + 7 bits with the padding |
| RoundTrip.InflateUndoes | mods/inflate.c:273-310 | whatever stream of stored, fixed-code and dynamic blocks stands for x, inflating it with any bytes after it and any ceiling at least the length of x gives x and the stream's own length; matches may reach into earlier blocks |
| Inflater.InfRaw | mods/inflate.c:273-310 | the decoder that advances `pos`, `bitbuf`, `bitcnt` and `err` gives, on every byte string, damaged or not, exactly the specified text and length, or nothing |
| Containers.RawThereAndBack | mods/deflate.c:545-606 | compressing, appending anything and expanding gives back the text and the size of the stream, within the size bound |
| Huffman.HeightFib | mods/deflate.c:190-241 | a tree built by repeated merging of the two lightest weighs at least Fib(height + 2) |
| Huffman.OverShrinks | mods/deflate.c:162-251 | when the tree is deeper than maxlen, halving the counts lowers their sum, so the retry loop ends; with counts of one it cannot be too deep |
| Huffman.LengthsComplete | mods/deflate.c:162-251 | lengths are nonzero exactly where the count is, never exceed maxlen, and Kraft's sum is exactly 1 with two or more used symbols and 1/2 with one |
| Optimality.Optimal | mods/deflate.c:190-241 | when the first tree is kept, no other code lengths for the same symbols that satisfy Kraft's inequality, however long, cost fewer bits |
| CodeLengths.FirstDepths | mods/deflate.c:190-241 | the heap, child and stack arrays hold the tree of the specification and its leaf depths, and report whether it is too deep |
| CodeLengths.Lengths | mods/deflate.c:162-251 | the loop over counts halved in place terminates and leaves the specified lengths, no 32-bit sum wrapping |
| Canonical.PrefixFree | mods/deflate.c:255-275 | of two different symbols with codes, neither code word begins the other, for any lengths whose Kraft sum is at most 1 |
| Canonical.DecodesTo | mods/inflate.c:94-111 | where a symbol's code word stands, that symbol and no other is decoded, whatever bits follow |
| CodeWords.Rev | mods/deflate.c:116-125 | the low n bits come back in the opposite order |
| CodeWords.Codes | mods/deflate.c:255-275 | in 16-bit arithmetic, every stored code is the canonical code word with its bits reversed, ready for the bit buffer |
| DecodeTable.Huf.Build | mods/inflate.c:61-91 | the answer is 0, -1 or the number of 15-bit patterns left over, and unless it is -1 the counts and the symbol list are those of the canonical code |
| Inflater.Inf.TakeSymbol | mods/inflate.c:94-111 | the symbol decoded bit by bit is the one whose code word stands at the cursor, and exactly its bits are consumed; an error exactly when there is none |
| Inflater.BuildDecides | mods/inflate.c:201-270 | for the code-length code and the codes of a block alike, what `inf_build` answers says whether the lengths fit, and 0 exactly whether they are complete or all zero |
| FixedCode.FixedFits | mods/inflate.c:172-198 | the fixed code's lengths make a complete code for literals, and leave two distance codes unused |
| FixedCode.FixedWords | mods/inflate.c:172-198 | the code words RFC 1951 section 3.2.6 writes out for literals, lengths and distances are the canonical ones for the lengths the code fills in |
| RoundTrip.FixedDecodes | mods/inflate.c:172-198 | the symbols of a block in the fixed code, written with those words, are read back with their text |
| RoundTrip.AnyTurn | mods/inflate.c:273-310 | a block of any of the three kinds, wherever it stands, is read as what it means |
| BitWriter.BitWriter.PutBits | mods/deflate.c:96-105 | exactly the low n bits are appended to the bit stream, at most seven waiting in the buffer |
| BitWriter.BitWriter.Align | mods/deflate.c:108-112 | zero bits up to a byte boundary are appended and nothing waits |
| Inflater.Inf.TakeBits | mods/inflate.c:16-31 | the next bits of the input, or an error exactly when there are not enough of them |
| Decoding.CodesUndone | mods/deflate.c:255-275 | reading a code word gives the symbol it was written for, at every place and before any bits |
| Tables.FindLSym | mods/deflate.c:130-138 | the search finds the last length code whose base is not above the length |
| Tables.LengthCovered | mods/inftab.c:19-24 | every length from 3 to 258 lies in the range of its code and extra bits |
| Tables.DistanceCovered | mods/inftab.c:26-34 | every distance from 1 to 32768 lies in the range of its code and extra bits |
| Tables.OrderRule | mods/inftab.c:16-17 | the repeats 16, 17, 18 come first, then 0, then 8 and its neighbours outwards, every symbol once |
| Tables.LengthRule | mods/inftab.c:19-24 | base and extra bits of every length code by the rule of RFC 1951 section 3.2.5 |
| Tables.DistanceRule | mods/inftab.c:26-34 | base and extra bits of every distance code by that rule |
| HashLaws.HashBits | mods/deflate.c:486-490 | each bit of the hash is the sum of the bits of the three bytes that reach it |
| HashLaws.HashSpreads | mods/deflate.c:486-490 | three bytes that differ only in the second or only in the last have different hashes |
| Tables.LBaseStep | mods/inftab.c:19-24 | the ranges of the length codes meet without gaps; only the last, for 258, lies inside the one before |
| Decoding.LengthRead | mods/deflate.c:470-476 | a length written as its code and extra bits is read back |
| Runs.CodeRuns | mods/deflate.c:280-342 | the symbols written expand to exactly the lengths given, and are no more than these |
| Runs.TwoSymbols | mods/deflate.c:407-420 | two different code-length symbols always occur |
| Blocks.RunsUseTwo | mods/deflate.c:407-420 | so the code-length code has two symbols at least, and is complete as the decoder demands |
| Decoding.LensSkip | mods/inflate.c:221-254 | the decoder's loop expands the run-length coded lengths back, repeats across the boundary between the two lists included |
| Chains.InsertLink | mods/deflate.c:533-542 | overwriting the slot of a position that has left the window keeps every chain link that still matters |
| Chains.Chains.Insert | mods/deflate.c:533-542 | the position is noted and the invariant of `head` and `prev` holds for one more position |
| Chains.Chains.Match | mods/deflate.c:495-530 | the longest match of 3 to 258 bytes, nearest first on ties, among the 32 most recent earlier positions with the same hash within 32768 bytes; 0 exactly when there is none |
| Chains.BestIsScan | mods/deflate.c:495-530 | that is what a plain scan over every earlier position finds, and it is the only such answer |
| Deflater.MatchPuts | mods/deflate.c:563-592 | copying the match, byte by byte and perhaps into itself, gives the input's own next bytes |
| Deflater.CollectBlock | mods/deflate.c:563-592 | the symbols collected are those of the plain scan taken greedily, they expand to the block's own bytes, and the counts are how often each code is used |
| Alphabet.CodesFit | mods/deflate.c:162-251 | lengths for any counts over 19, 30 or 286 symbols satisfy Kraft's inequality at 7 or 15 bits, and are complete with two used symbols |
| Alphabet.Alphabet.ForceTwo | mods/deflate.c:379-387 | the first unused symbols, and no more of them than needed, are counted once so that two are used |
| Blocks.StandIn | mods/deflate.c:390-397 | when no distance has a code, symbol 0 gets one bit; otherwise nothing changes |
| Blocks.TrimOrder | mods/deflate.c:417-420 | only zero lengths at the end of the format's order are cut off, down to four, and all of them |
| Counting.TalliesWeigh | mods/deflate.c:346-359 | counts times lengths is the length of everything written |
| Blocks.Cost | mods/deflate.c:346-359 | the three loops compute what the counted symbols take with these code lengths |
| Blocks.CostCovers | mods/deflate.c:346-359 | that is exactly what the symbols and the end of the block take, and more only by what was counted to force two codes |
| Blocks.DynamicSize | mods/deflate.c:452-482 | the length of a dynamic block is its header, its runs, its symbols and the end of the block |
| BlockWriter.WriteStored | mods/deflate.c:426-451 | stored pieces of at most 65535 bytes stand for the bytes and take no more than the reckoned bits |
| Blocks.WriteDynamic | mods/deflate.c:452-482 | the bits of the specified dynamic block are appended, and nothing else |
| Blocks.Df.Block | mods/deflate.c:364-483 | a block that stands for the bytes collected is written, and takes no more bits than the smaller of the two costs |
| Inflater.Inf.CopyMatch | mods/inflate.c:44-58 | bytes are copied one at a time, a match may reach into itself, and it is an error exactly when it reaches before the text or past the ceiling |
| Inflater.Inf.TakeCodes | mods/inflate.c:114-148 | literals and matches up to the end-of-block symbol, as specified, errors included |
| Inflater.Inf.TakeStored | mods/inflate.c:151-169 | a stored block's bytes; the complement of its length is skipped unread, as in the code |
| Inflater.Inf.TakeDynamic | mods/inflate.c:201-270 | a dynamic block's header and symbols, every way it can be refused included |
| Decoding.SymbolsSkip | mods/inflate.c:114-148 | the symbols of a block are read back, their text appended to what earlier blocks left |
| RoundTrip.BlocksSkip | mods/inflate.c:273-310 | blocks that are not the last are passed over, each leaving its text |
| Checksums.Crc32 | mods/deflate.c:640-661 | the table-driven loop computes the bit-serial CRC-32 |
| Checksums.ByteStep | mods/deflate.c:640-661 | one table step stands for eight single-bit steps |
| Checksums.CrcDetects | mods/deflate.c:640-661 | no change of a single byte leaves the CRC as it was |
| CrcLaws.PolyBits | mods/deflate.c:640-661 | the constant is the generator polynomial x^32 + x^26 + ... + x + 1 of ISO 3309, its bits in the order they leave |
| CrcLaws.CrcDivides | mods/deflate.c:640-661 | the CRC is the remainder of dividing by that polynomial, lowest bit first, all ones before and each bit turned over after |
| Checksums.Adler | mods/deflate.c:611-634 | both halves, reduced at every byte, are the plain sums modulo 65521 |
| Containers.DefZlib | mods/deflate.c:611-634 | header, a raw stream for the text, and its Adler-32, most significant byte first; six bytes above the raw bound |
| Containers.InfZlib | mods/inflate.c:313-332 | exactly what the header tests and the raw decoder say, on every byte string |
| Containers.ZlibUndoes | mods/inflate.c:313-332 | a zlib stream is read back whole whatever follows it, its length reported with header and trailer |
| Containers.GzipStartIs | mods/inflate.c:337-382 | whatever optional fields a header has, the data is found right after them |
| Containers.InfGzip | mods/inflate.c:337-382 | exactly what the header and the raw decoder say, on every byte string |
| Containers.GzipUndoes | mods/inflate.c:337-382 | a member with any optional fields is read back whole, whatever follows it |
| Containers.DefGzip | mods/deflate.c:673-687 | header with the time, a raw stream for the text, its CRC-32 and length, least significant byte first |
| Containers.DefGzipUndone | mods/deflate.c:673-687 | what is written as gzip is read back as the same text, whatever follows it |
| Png.Paeth | mods/png.c:58-68 | of left, above and above-left the nearest to their prediction; of equals, left before above before above-left |
| Png.Filter | mods/png.c:73-96 | the residuals of the given filter, and the sum of their magnitudes as signed bytes |
| Png.UnfilterUndoes | mods/png.c:73-96 | the reconstruction functions of clause 9.2 of ISO/IEC 15948, one formula for each filter number, give back the row that was filtered |
| Png.PaethSame | mods/png.c:58-68 | it is the predictor of clause 9.4 |
| Png.Choose | mods/png.c:126-146 | the filter kept has the least residual sum of the five, the first of equals, and its residuals are the ones kept |
| Png.FilterAll | mods/png.c:126-146 | every line of the buffer is its chosen filter and its residuals |
| Png.PictureBack | mods/png.c:98-154 | rebuilding line after line gives back the whole bitmap |
| Png.PutChunk | mods/png.c:43-54 | length, tag, data, and the CRC over tag and data |
| Png.Write | mods/png.c:98-154 | signature, header, a zlib stream of the filtered lines, and end |
| Png.PictureRead | mods/png.c:98-154 | a reader that checks the signature, the three chunks with their types and CRCs, and the header for eight-bit RGB, and then expands and rebuilds, gets back width, height and every pixel |
| Patterns.Brk | src/expand.c:1921-1961 | where a bracket expression closes, if it does, and whether it takes the character |
| Patterns.GMatch | src/expand.c:1966-2014 | backtracking decides the match relation, for every pattern without extended groups |
| Patterns.MatchesMeansCuts | src/expand.c:1966-2014 | a pattern matches exactly the texts that can be cut into one piece for each element |
| PatternLaws.ClassMeans | src/expand.c:1862-1887 | each of the twelve named classes takes exactly its characters, given by their numbers |
| PatternLaws.ClassLaws | src/expand.c:1862-1887 | alpha is upper or lower and never both, alnum alpha or digit, graph alnum or punct, print graph or the space, and cntrl the rest |
| PatternLaws.BracketMeans | src/expand.c:1921-1961 | a bracket expression takes the characters, ranges and classes written in it, and with `!` or `^` all others |
| PatternLaws.SlashedMeans | src/expand.c:1966-2014 | a text with a backslash before every character matches itself and nothing else |
| PatternLaws.PlainMeans | src/expand.c:1966-2014 | so does a text with nothing special in it |
| PatternLaws.Wildcards | src/expand.c:1966-2014 | a question mark takes any one character, a star any text |
| Pruning.GLen | src/expand.c:358-379 | the number of characters every match takes, or -1 exactly when there is a star |
| Pruning.FixedLength | src/expand.c:358-379 | without a star every match has that length |
| Pruning.FirstIsLiteral | src/expand.c:419-427 | every match begins with the character `gfirst` names |
| Pruning.LastIsFinal | src/expand.c:442-457 | the character `glast` names is the last element, or else the last element is a bracket closed by it |
| Pruning.WrapMeans | src/expand.c:463-484 | the pattern with stars added matches a text exactly when some prefix, suffix or part of it, as the stars say, matches the pattern |
| Trimming.GCut | src/expand.c:487-496 | the cut is decided in place and the byte overwritten is put back |
| Trimming.XTrim | src/expand.c:542-604 | with all its shortcuts it cuts at the first good cut, tried shortest or longest first |
| Trimming.TryBest | src/expand.c:542-604 | the first good cut in that order is the shortest or the longest of all |
| Trimming.WrapPrunes | src/expand.c:542-604 | when the starred pattern fails on the whole value, no cut is good |
| Trimming.FilterHarmless | src/expand.c:542-604 | when every match ends in one character, trying only cuts after it changes no answer |
| Trimming.TrimExact | src/expand.c:442-457 | the answer is that of trying every cut, for every value and operator, if and only if the pattern is not one whose closing bracket `glast` takes for an escaped character |
| Trimming.IsMisread | src/expand.c:442-457 | a loop over the pattern's elements and the ASCII characters decides which patterns these are, before any value is trimmed |
| Trimming.MisreadFails | src/expand.c:442-457 | every such pattern leaves some value that it matches as a whole uncut |
| Trimming.MisreadExample | src/expand.c:442-457 | `*[A-\]` matches "xB", and yet cuts nothing from it |
| Replacing.FindIs | src/expand.c:502-537 | what is found matches, nothing matches from an earlier place, and nothing longer from the same place |
| Replacing.XFind | src/expand.c:502-537 | with its first-character, length and starred-pattern tests it finds exactly the leftmost longest match, and leaves the value as it was |
| Replacing.XRepl | src/expand.c:609-650 | one or all leftmost longest matches are replaced, an empty match stepping over a character; no shortcut changes the answer |
| Replacing.XReplA | src/expand.c:653-709 | the longest anchored match, at the start or the end, is replaced |
| TrimLaws.PrefixCut | src/expand.c:542-604 | of the prefixes that match, the longest or the shortest is cut off; if none does, nothing is |
| TrimLaws.SuffixCut | src/expand.c:542-604 | so of the suffixes |
| TrimLaws.PlainReplaced | src/expand.c:609-650 | the first place where a plain text occurs is replaced, and the rest is searched on only for all |
| TrimLaws.PlainAbsent | src/expand.c:609-650 | a value in which it does not occur is left as it is |
| TrimLaws.StartReplaced | src/expand.c:653-709 | anchored at the start, the longest matching prefix is replaced |
| TrimLaws.EndReplaced | src/expand.c:653-709 | anchored at the end, the longest matching suffix |
| TrimLaws.Ampersand | src/expand.c:609-650 | in a replacement an unquoted `&` stands for the match, and `\&` for an ampersand |
| Int64.Squaring | src/expand.c:3595-3641 | the loop that squares modulo 2^64 gives the power modulo 2^64 |
| Int64.DivFits | src/expand.c:3595-3641 | division and remainder stay in range except by -1, where they are the wrapped negation and 0 |
| Int64.Compute | src/expand.c:3595-3641 | every operator gives the wrapped 64-bit value, or an error for division by zero and negative powers |
| Arith.Ax.TakePrim | src/expand.c:3431-3496 | numbers in any base, names with steps and subscripts, and parentheses, with the nesting limit, as specified on every text |
| Arith.Ax.TakeUn | src/expand.c:3517-3555 | the prefix operators and steps, as specified on every text |
| Arith.Ax.TakeBin | src/expand.c:3644-3666 | precedence climbing, with the operands of && and \|\| that are not needed walked through, as specified on every text |
| Arith.Ax.TakeTern | src/expand.c:3669-3694 | only the branch taken is evaluated, as specified on every text |
| Arith.Ax.TakeAssign | src/expand.c:3701-3733 | an assignment, or the condition it falls back to when no assignment operator follows the name |
| Arith.FindAsg | src/expand.c:3750-3765 | the scan for an assignment operator, as specified |
| Arith.RunText | src/expand.c:3768-3786 | the value, 0 if it failed, and the variables left, on every text |
| ArithTree.EvIdle | src/expand.c:3595-3641 | in a branch that is not taken, or after an error, no variable changes and no error is raised |
| ArithTree.EvMeans | src/expand.c:3644-3747 | evaluating with the skip counter comes to the plain meaning of the tree, variables and errors included |
| ArithRoundTrip.AssignFalls | src/expand.c:3701-3733 | where nothing assigns, reading the name first and then falling back changes nothing |
| ArithRoundTrip.ScanFinds | src/expand.c:3750-3765 | the scan never misses the `=` of an assignment, so skipping the attempt to assign is safe |
| ArithRoundTrip.RunMeans | src/expand.c:3768-3786 | for every tree within the nesting limit, printed with spaces and only the parentheses it needs, the result is the tree's wrapped value, or 0 and a failure, and exactly the variables its meaning leaves |
| ArithLaws.TwoOperators | src/expand.c:3557-3592 | of two operators without parentheses the one in the tighter group of C takes its operands first, of equals the left one, and of two `**` the right one; the groups are listed apart from the precedence table |
| ArithLaws.PrefixFirst | src/expand.c:3517-3555 | a prefix operator takes its operand before any binary one, `**` included |
| ArithLaws.Conditions | src/expand.c:3669-3694 | `?:` takes its condition after every binary operator and nests to the right |
| ArithLaws.Assigned | src/expand.c:3701-3747 | an assignment takes all up to a comma, and leaves the value in its variable |
| ArithLaws.Sums | src/expand.c:3595-3641 | what the spellings + - * ** / % come to on any two numbers, division by zero failing |
| ArithLaws.Tests | src/expand.c:3595-3641 | what < <= > >= == != && \|\| come to |
| ArithLaws.Shifts | src/expand.c:3595-3641 | what << and >> come to, the count taken modulo 64 |
| ArithLaws.Masks | src/expand.c:3595-3641 | what & \| ^ come to |
| ArithLaws.Prefixes | src/expand.c:3517-3555 | what - + ~ ! come to |
| ArithLaws.HexNumber | src/expand.c:3431-3496 | after 0x hexadecimal digits in either case, wrapped to 64 bits |
| ArithLaws.OctalNumber | src/expand.c:3431-3496 | after a lone 0 octal digits |
| ArithLaws.BasedNumber | src/expand.c:3408-3496 | after base# the digits of that base, up to 64 |
| ArithLaws.SubscriptedName | src/expand.c:3382-3405 | a name takes its subscript along, whatever brackets are balanced inside |
| ArithRun.Evaluate | src/expand.c:3768-3786 | the mutable evaluator on the printed tree gives its meaning |
| FunctionTable.AndIsMod | src/exec.c:524-545 | masking with one less than a power of two is the remainder, so every slot is inside the table |
| FunctionTable.IndexOne | src/exec.c:524-545 | filling the first empty slot of a name's probe sequence keeps every other function reachable |
| FunctionTable.NotThere | src/exec.c:548-564 | a probe that reaches an empty slot has passed every slot that could hold the name |
| FunctionTable.Functions.Rehash | src/exec.c:524-545 | the table is rebuilt to hold exactly the functions there are, at most half full |
| FunctionTable.Functions.HashFind | src/exec.c:548-564 | probing answers what a linear search answers, and always ends |
| FunctionTable.Functions.Find | src/exec.c:567-582 | on both sides of the threshold of sixteen functions the answer is that of a linear search, and `fni` is its place |
| FunctionTable.Functions.Source | src/exec.c:597-607 | the file of exactly that definition, whether or not the place last found is still its own |
| FunctionTable.Functions.Add | src/exec.c:632-662 | a function is defined, redefined in its place, or refused as readonly or as a strict redefinition in the same file; no other name changes |
| FunctionTable.Functions.Unset | src/bi.c:311-323 | the name is gone, the last function takes its place, and every other name answers as before |
| FunctionTable.RunAll | src/exec.c:524-662 | over every run of commands from the empty table, names stay unique and every answer is that of a plain map |
| Csv.PutField | mods/csv.c:142-157 | a field is written as it stands, or between quotes with its quotes doubled exactly when something in it needs that |
| Csv.WriteLine | mods/csv.c:337-358 | the fields of a record with separators between them |
| Csv.Reader.Rec | mods/csv.c:55-130 | the next record and the text left, on every text, quotes and both line endings included, and a byte-order mark passed over if asked |
| CsvRoundTrip.QuotedRead | mods/csv.c:55-130 | between quotes everything is read as it stands and doubled quotes as one |
| CsvRoundTrip.RecordRead | mods/csv.c:337-358 | a record that was written is read back, whatever follows it, for either line ending |
| CsvRoundTrip.PutPlain | mods/csv.c:142-157 | a field is written as it stands exactly when it holds no separator, quote or line break |
| CsvRoundTrip.BareRecordRead | mods/csv.c:55-130 | a line of fields without quotes around them is one record, quotes inside a field standing for themselves |
| CsvRoundTrip.ThereAndBack | mods/csv.c:55-157 | any list of records of one or more fields, each ended by LF or CRLF, is read back, and then nothing more |
| JsonText.PutQuoted | src/mem.c:20-41 | the escaped text between quotes |
| JsonText.Out | src/json.c:288-330 | the specified text of a value, compact or indented, is appended |
| JsonText.Jp.TakeStr | src/json.c:85-137 | a quoted string with every escape and surrogate pair, on every text, malformed or not |
| JsonText.Jp.TakeVal | src/json.c:140-218 | the value at the cursor, on every text, repeated keys, depth and malformed text included |
| JsonRoundTrip.Esc1Read | src/mem.c:20-41 | every byte, however it was escaped, is read back as itself |
| JsonRoundTrip.StrRead | src/json.c:85-137 | an escaped string is read back, and the text after it is left |
| JsonLaws.CodeRead | src/json.c:85-137 | \u and four hexadecimal digits stand for that code point |
| JsonLaws.PairRead | src/json.c:85-137 | a pair of surrogate escapes stands for the code point it encodes |
| JsonLaws.LoneRead | src/json.c:85-137 | half a pair, or code point zero, is read as U+FFFD |
| JsonLaws.LetterRead | src/json.c:85-137 | each of the other escapes stands for its character |
| JsonLaws.NothingBare | src/mem.c:20-41 | no control character stands bare in an emitted string |
| JsonLaws.BlanksSkip | src/json.c:10-14 | spaces, tabs and line breaks are passed over, and nothing else |
| JsonRoundTrip.ElemsRead | src/json.c:140-218 | the elements of a container are read back in order, under their own keys |
| JsonRoundTrip.DocumentBack | src/json.c:140-330 | for every typed tree at most 2000 containers deep, parsing what is emitted, compact or pretty, gives back the same tree: types, key order, empty containers and strings |
| JsonText.ThereAndBack | src/json.c:140-330 | the emitter and the parser as they run do the same |
| Quoting.PutSq | src/mem.c:486-505 | the value between single quotes, each quote inside closed, escaped and opened again |
| Quoting.Quote | src/expand.c:1300-1346 | backslashes, single quotes or `$'...'`, as the value's control characters and the mode decide |
| Quoting.PutArgument | src/daily.c:64-98 | an argument without a mask: single quotes for the empty one and for line breaks, backslashes otherwise |
| WordLexer.Scanner.TakeWord | src/lex.c:663-874 | the parts of one word and the state it leaves, or no word, on every text |
| WordLaws.DoubleQuoted | src/lex.c:731-753 | text in double quotes is one quoted part: a backslash goes before a quote, backslash, dollar or backquote, vanishes with a line feed, and stays before anything else |
| WordLaws.DoubleQuotesBack | src/lex.c:731-753 | so every value, with a backslash before each of those four, is read back |
| WordLaws.QuoteOpen | src/lex.c:731-857 | without the closing quote more text is asked for |
| WordLaws.LocaleQuotes | src/lex.c:754-759 | a dollar before double quotes is passed over |
| WordLaws.BareRead | src/lex.c:663-719 | a bare word goes up to the first blank, line feed or operator character, and is one unquoted part |
| WordLaws.SlashRead | src/lex.c:737-753 | outside quotes a backslash quotes any character but a line feed, which it takes away |
| WordLaws.GroupRead | src/lex.c:696-716 | a pattern group that is closed is part of the word, blanks and bars included |
| WordLaws.LetterEscapes | src/lex.c:760-798 | each letter after a backslash between $' and ' stands for its control character |
| WordLaws.ControlEscapes | src/trap.c:596-603 | `\c` and a letter stand for the control character sixty-four places away |
| WordLaws.ByteEscape | src/lex.c:799-818 | `\x` and two digits stand for that byte |
| WordLaws.CodeEscape | src/lex.c:624-649 | `\u` and four digits stand for that code point in UTF-8 |
| WordLaws.Utf8Says | src/lex.c:624-649 | a code point is written in as many bytes as it needs, six bits in each following byte (RFC 3629) |
| QuotingRoundTrip.EscapeBack | src/expand.c:1323-1340 | what follows the backslash, a letter or three octal digits, is read as the one character that was escaped |
| QuotingRoundTrip.SqBack | src/mem.c:486-505 | lexing gives exactly one word without expansions whose text is the value |
| QuotingRoundTrip.XQuoteBack | src/expand.c:1300-1346 | the same, for every value without NUL and in every mode |
| QuotingRoundTrip.AQuoteBack | src/daily.c:89-98 | the same |
| WordLexer.ThereAndBack | src/lex.c:663-874 | the quoters and the lexer as they run agree: the word read is the value quoted, whichever of the four ways |
| Reading.Add | src/bi.c:749-763 | the bytes are appended without their NULs, or all of them when NUL is the delimiter |
| Reading.ByteRead | src/bi.c:799-893 | the byte path: bytes appended, offset and answer are what the specification says of the rest of the file |
| Reading.Scan | src/bi.c:799-893 | one block is scanned to the delimiter, to the last character wanted, or to its end, a character straddling blocks carried over |
| Reading.BlockRead | src/bi.c:799-893 | the block path: the same, whatever sizes the reads return, the offset moved back to just past what was taken |
| ReadLaws.CharactersRead | src/bi.c:707-742 | asked for some characters, exactly the bytes of as many whole UTF-8 characters are taken, each as long as its leading byte says |
| ReadLaws.LineRead | src/bi.c:799-893 | asked for a line, the bytes up to the delimiter are taken and the delimiter used up; at the end of the file what there is, and it says so |
| Reading.BothWays | src/bi.c:799-893 | so both paths append the same bytes, leave the same offset and give the same answer |
| Arena.Arena.Front | src/mem.c:207-227 | an empty block with room enough is put in front: the first spare one exactly when that is big enough, or else a fresh one of the arena's own size doubled until it holds n |
| Arena.Arena.Push | src/mem.c:207-227 | what is live and every mark survive a new block in front |
| Arena.Arena.Raw | src/mem.c:251-262 | with room for the rounded size, the bytes begin at the newest block's old offset, which grows by that size, and otherwise at the start of a new block; they lie inside the block, above everything live there, and nothing live changes |
| Arena.Arena.Alloc | src/mem.c:242-248 | the new allocation is zero, even in a block used before, and every other one keeps its bytes |
| Arena.Arena.Dup | src/mem.c:265-273 | the new allocation holds the text and a NUL, and every other one keeps its bytes |
| Arena.RoundFits | src/mem.c:251-262 | rounding in 64-bit arithmetic is what is meant exactly for the sizes that are not among the fifteen greatest, which come to 0 |
| Arena.Arena.Put | src/mem.c:265-273 | a write inside one live allocation changes that text there and no other |
| Arena.Arena.TakeMark | src/mem.c:276-283 | the newest block and its offset, and they will stay good to release to |
| Arena.Arena.Drop | src/mem.c:230-239 | a block joins the spare list exactly when fewer than four are there and it is no larger than the arena's own size |
| Arena.NotedBack | src/mem.c:286-297 | releasing to a mark keeps it and every earlier one good |
| Arena.Arena.Release | src/mem.c:286-297 | the chain, the newest block, its offset and what is live are what they were at the mark, and the spare list stays apart, at most four long |
| Arena.Arena.Reset | src/mem.c:300-311 | only the block linked first is left, empty, and nothing is live |
| Arena.ResetKeeps | src/mem.c:299-311 | the block kept is the newest one exactly when there is only one |
| Arena.ResetExample | src/mem.c:299-311 | with two blocks the newest one is not the one kept |
| Arena.Step | src/mem.c:207-311 | each command does to the arena what it does to a plain list of independent buffers |
| Arena.Run | src/mem.c:207-311 | over every run of allocate, copy, write, mark, release and reset, every live buffer holds what was written to it and nothing else |

## Left out

- The `df_bits` buffer, the counts and code tables of `struct df`: held in the classes `BitWriter` and `Alphabet`, one alphabet for each of the three codes, instead of in one struct.
- The three parallel byte arrays `df_runs` fills: one array of records.
- 32-bit overflow of counts in `df_lengths`: shown not to happen, given that the counts add up to less than 2^31.
- Which of a stored and a dynamic block is written when both are reckoned to take the same bits.
- Inputs of 2^31 bytes or more, whose positions the encoder casts to `int`.
- Checksums when reading: the code does not look at them.
- The process of opening and closing files, and allocation failure, everywhere.
- Extended groups `?(` `*(` `+(` `@(` `!(` in patterns, which rewrite the pattern's text, and characters outside ASCII, on whose boundaries the trimming helpers disagree.
- Trimming.XTrim: values and patterns have no NUL, as C strings do not.
- Arithmetic variables hold 64-bit numbers; a variable's text is not evaluated as an expression again, and `set -u` is not modelled.
- Subscripts of arithmetic names: a name with its subscripts is one key, not evaluated.
- ArithRoundTrip.RunMeans: trees with subscripted names are not printed.
- Function bodies and their parse trees: a function is its name and a number standing for its body.
- The vectors of the function table grow as sequences; the hash table is an array.
- JSON entries are values in a list, not a chained hash map; a repeated key is found by its place.
- JSON numbers in a typed tree are any text that the parser takes for a number; their numeric value is not modelled.
- CSV readers over files: the reader is over a text.
- Expansions in words: how far one reaches is a parameter of the lexer, the same for all; here-documents and the lexer's other callers are not modelled.
- `al_quote` with a mask.
- `read` from terminals, pipes and datagrams, interrupted reads and deadlines; the file is a byte sequence with an offset that grows by whatever each read returns.
- Arena.Arena.Raw: sizes are unbounded numbers; for the fifteen greatest sizes the source's rounding comes to 0 (`Arena.RoundFits`), and above 2^63 its doubling overflows.
- Addresses in the arena: an allocation is a block, an offset and a length; freed blocks are simply no longer in any list.
- `ar_new`'s default size and `ar_free`.
- The rest of the shell: the executor, jobs, prompt, editor, modules for networking, authentication and math.
