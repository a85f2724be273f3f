# A verified model of the two-pass JSON parser of `json.c`

This project models the parser `json_parse_ex` of `json.c` with its helpers `new_value`, `json_alloc`
and `hex_value`, and the destructor `json_value_free_ex`. The parser is one flat loop over the bytes
of the text, driven by flag bits and by a pointer `top` that climbs parent links. The loop runs
twice: the first pass creates the nodes, links them into a chain and measures them; the second pops the
nodes from the chain, allocates blocks of exactly the measured sizes and fills them.

Relaxed commas are off throughout, as in `json_parse`.

## How the project is built

- `Text`, `Escape`, `Numbers`: bytes, string items with their escapes, number tokens.
- `Grammar`: the language as concrete syntax trees. `Yield` is what a tree spells, `Derives` says that a
  tree spells a text, `Meaning` is the value a tree denotes.
- `Machine`: a pushdown machine whose states are partial syntax trees. One step is one trip round the
  byte loop of the first pass.
- `Soundness`, `Completeness`, `RoundTrip`, `Rfc`: the machine accepts exactly the derivable texts; printing
  and parsing; the relation to RFC 8259 and RFC 3629.
- `Spelling`: the same language written with characters and numbers only, without the constants that the
  parser uses. `Spells` says that a tree spells a text within the limits.
- `Table`, `Growth`, `Skip`: the nodes in the order of their creation, how they grow along a run, and
  the two ways of reading a number.
- `Memory`, `Layout`: nodes and blocks, the allocator with its budget, the destructor; how a table lies
  in memory in each pass.
- `Requests`: what a parse asks of the allocator, as a function of the text's tree.
- `Reading`: the result as its reader finds it. `Denotes` follows the pointers from a node to a value, `Means`
  says what a tree stands for, `Cost` what a value occupies; none of them names what the parser computes with.
- `Representation`, `Built`, `Parser`: the class `Parser` with the flags, pointers and counters of
  `json_parse_ex`. Each piece of the loop body is a method whose contract says which step of the
  machine it performs and that memory is again the image of the machine's state.

The chain of results is: `Parser.Parser.Body` performs a step of the machine; hence a pass decides what
`Machine.Parse` decides; `Completeness.ParseIffDerives` turns that into derivability, and
`Spelling.ParseIffSpelled` into spelling; `Built.BuiltTree` turns the memory after the second pass into the
tree of the text's meaning, `Reading.DeliveredReads` into the value that a reader finds; and
`Memory.Heap.FreeTree` frees that tree.

## Where the code differs from its own description

- `json_char` is signed, so the high byte of a `\uXXXX` unit is sign-extended before it is scaled
  (`json.c:314`). The result is truncated to 16 bits, and `Escape.CodeUnitIsConcatenation` shows that
  this does no harm.
- The second pass skips any run of `[0-9+-eE.]` (`json.c:517-533`), which alone would take far more than
  a number (`Skip.SkipTakesMore`).
- A 0 byte inside the text ends it like the sentinel. The model follows the code in this.
- With a signed `json_char` the test for a UTF-8 byte order mark (`json.c:225-227`) never holds, so nothing
  is skipped; the model has no skip.

## Model

| member | source | states |
|---|---|---|
| Parser.Parser.ParseEx | json.c:207-819 | A tree is returned exactly when a correct syntax tree within the limits spells the text and the allocator grants, one after the other, the requests of that tree; under a memory limit with a `mem_alloc` that never fails, exactly when moreover the value costs no more than the limit; where the limit also allows 56 bytes per byte of text, exactly when a tree spells the text. A reader of the returned root then finds the text's meaning: kinds, integers, doubles, booleans, strings with their terminators, children in order with their parents, names. Nothing else is live; `used_memory` is the cost of the value and keeps to the limit. On a syntax error no tree spells the text and nothing is left: every node ever created has been freed once, through the chain |
| Parser.ParseAndFree | json.c:805-875 | A tree is returned under the same conditions; after a successful parse and the destructor, and after every syntax error, no node and no block is live; the destructor's log is that of the text's tree, without repetition |
| Requests.Shortage | json.c:89-101 | If a request is refused, the requests of the text's tree, if it has one, could not all have been granted; the refused request and all before it sum to at most 56 bytes per byte of text, so nothing is refused where the limit and the counter allow that much |
| Requests.RequestsLinear | json.c:121-163 | What a derivable text asks for, nodes and blocks together, is at most 56 bytes per byte of text |
| Requests.RequestsSum | json.c:121-163 | The sum of all requests is the size of the text's nodes and blocks |
| Requests.Paid | json.c:89-101 | After the second pass the sizes granted sum to what the live nodes and blocks occupy |
| Parser.JsonParse | json.c:821-825 | The same for the entry point without a memory limit. If `mem_alloc` never fails, a text of at most 4294967287 bytes is parsed exactly when a correct tree spells it, and every text of RFC 8259 of that length is parsed; the reader of the root finds its meaning. Existing objects stay untouched |
| Reading.DeliveredReads | json.h:80-157 | Whoever follows the pointers from the delivered root finds the meaning of the text: the node's kind and the very field of its union, strings as long as their length says with a 0 behind, slots in order pointing to children whose parent is this node, names at their offsets with their terminators. Stated on nodes and blocks alone |
| Reading.HoldsDenotes | json.h:80-157 | The same for every subtree, by induction |
| Reading.MeaningIsMeant | json.c:248-778 | What the parser stores for a correct tree is what the tree stands for: `true` is true, an integer its signed digits modulo 2^64, a double all its digits scaled by its exponent, a string the bytes of its items, a container its items in order with their names |
| Reading.MeantIff | json.c:248-778 | A correct tree whose numbers are within range stands for exactly one value, and that is the one stored |
| Reading.RequestsCost | json.c:103-180 | What a parse asks for in all depends on the value alone: 40 bytes a node, a string's bytes and terminator, 8 for each element, 16 for each member and its name with the terminator |
| Reading.LimitedIff | json.c:89-101 | Under a limit and with a `mem_alloc` that never fails, requests are all granted exactly when their sum keeps to the limit and to the 64-bit counter |
| Reading.UnlimitedIff | json.c:89-101 | Without a limit, exactly when none of them alone exceeds the counter |
| Completeness.ParseIffDerives | json.c:248-778 | For every text and tree: the byte loop accepts with that tree exactly when the tree derives the text |
| Spelling.ParseIffSpelled | json.c:248-778 | For every text and tree: the byte loop accepts with that tree exactly when the tree is correct, keeps to the limits and spells the text, all of it said with characters and numbers |
| Spelling.TextIs | json.c:261-773 | The text that the grammar gives a tree is the one with the characters of JSON: braces, brackets, colon, comma, quotes, dot, the three words |
| Spelling.CorrectIs | json.c:261-773 | The grammar's trees are those with blanks, digits, hexadecimal digits, marks and signs written as characters |
| Spelling.WithinIs | json.c:242-289 | The counters take exactly the trees whose strings, names and containers are no longer than 2^32 - 9 |
| Spelling.ShortIsAccepted | json.c:242-289 | A text of at most 4294967287 bytes that a correct tree spells is accepted, with that tree; no counter is in the way |
| Completeness.GrammarUnambiguous | json.c:248-778 | At most one tree derives a text |
| Completeness.ParseComplete | json.c:261-773 | Every derivable text is accepted, by induction over the tree and the run |
| Soundness.StepSound | json.c:263-773 | Every step keeps the invariant: the bytes consumed so far are exactly what the partial tree spells, open containers are well formed, a key has been read exactly where a value is awaited, and the counters are within bounds |
| Soundness.ParseSound | json.c:248-778 | The tree of an accepted text derives it |
| Machine.Step | json.c:261-263 | Every trip round the loop moves forward, or stays and lowers a rank; the position never passes the end of the text |
| RoundTrip.PrintParses | json.c:261-773 | Whatever value without doubles is printed, and however its tokens are spaced, parsing gives the value back |
| RoundTrip.PrintInjective | json.c:261-773 | Texts printed from different values differ |
| RoundTrip.PrintOk | json.c:261-773 | The tree printed for a value is well formed, within the counters, and means the value |
| RoundTrip.BareSame | json.c:185-187 | White space between tokens affects neither acceptance nor meaning |
| Rfc.RfcAccepted | json.c:248-778 | Every text of RFC 8259 is accepted if it keeps to the limits or has at most 4294967287 bytes; what such a text looks like is written with characters |
| Rfc.RfcIffNoExtra | json.c:343-345 | A well-formed tree is one of RFC 8259 exactly when it has none of five extras: a comma before a closing bracket, a '-' without digits, a raw control byte, an escape the standard does not list, a string that is not UTF-8 |
| Rfc.AcceptedIsRfcOrExtra | json.c:248-778 | An accepted text is an RFC 8259 text within the counters exactly when its tree has none of the five extras and spells the whole text; otherwise a 0 byte follows what it spells |
| Rfc.BytesAccepted | json.c:263-397 | A string with the byte 255, and a text followed by a 0 byte and a bracket, are accepted |
| Rfc.RfcIsUtf8 | json.c:248-778 | A text of RFC 8259 is UTF-8 as a whole (section 8.1) |
| Rfc.CharLengthIff | json.c:316-340 | The characters that make up UTF-8 are those whose number, by the arithmetic of the bytes, lies in the range RFC 3629 section 3 gives to their length and is no surrogate |
| Rfc.EscapeIsUtf8 | json.c:302-340 | What is stored for four hexadecimal digits is UTF-8 exactly when their number is no surrogate |
| Escape.HexValueIsNibble | json.c:51-65 | The value 0xFF is returned exactly for bytes that are no hexadecimal digits, and a digit's value is a nibble |
| Escape.HexValueIsDigit | json.c:51-65 | The value of a hexadecimal digit is the number it stands for |
| Escape.EscapeEncodes | json.c:302-340 | The bytes stored for an escape are the one, two or three byte form of the number its four digits spell, in integer arithmetic |
| Rfc.StringStoredIff | json.c:281-349 | The bytes stored for a string are exactly those its items stand for, one after the other: a byte itself, the character of an escape, the UTF-8 form of four hexadecimal digits |
| Escape.UnitIsFourDigits | json.c:302-340 | The encoding of four digits decodes to the nibbles of the digits side by side |
| Rfc.EscapeStored | json.c:295-345 | The escapes of RFC 8259 section 7 are stored as the characters they stand for, any other as the escaped byte |
| Escape.CodeUnitIsConcatenation | json.c:311-314 | The signed arithmetic yields the two bytes side by side |
| Escape.EncodeDecodes | json.c:316-340 | The bytes written for a code unit decode to it, and have the marks and the length that RFC 3629 section 3 assigns to it |
| Escape.EncodeInjective | json.c:316-340 | Different code units are written differently |
| Escape.CountedIsWritten | json.c:322-340 | What the first pass counts for an item is what the second writes for it |
| Escape.StringCountedIsWritten | json.c:189-190 | The same for whole strings |
| Numbers.StepNumYield | json.c:606-713 | A byte taken by the digit machine extends the token's spelling; a token that ends is complete and was not followed by a digit |
| Numbers.AccumulateDigit | json.c:632 | The 64-bit accumulator after a digit is the decimal value of the digits so far, wrapped |
| Numbers.NoOverflowIff | json.c:632 | No accumulation step leaves the 64-bit range exactly when the whole magnitude is within it |
| Numbers.IntegerWithoutOverflow | json.c:609-634 | For every accepted integer: no step of the accumulation and not the negation leaves the signed 64-bit range exactly when its value is between -(2^63-1) and 2^63-1; then the stored value is the signed decimal value |
| Numbers.IntegerStoredIff | json.c:609-634 | With wrap-around, the stored value is the signed decimal value exactly when that value is a 64-bit integer |
| Numbers.StoredExactly | json.c:652-710 | While the accumulators are in range the registers hold the exact value of the token |
| Numbers.DoubleMeaning | json.c:652-710 | The exact value of a double is its sign times all its digits times ten to the power of its exponent less the number of digits behind the dot: moving the dot against the exponent changes nothing |
| Numbers.ScaleStep | json.c:675-701 | The power by which fractions are divided and exponents scale: 1 at 0, and ten times as much at e + 1 as at e, for every integer e |
| Numbers.DecimalJoin | json.c:632-675 | Digits behind digits: the value in front is shifted by their number |
| Grammar.MeaningExact | json.c:606-713 | The same for every number of a text |
| Skip.NumberSkipAgrees | json.c:517-533 | On every text the first pass accepts, the skip of the second pass stops where the digit machine stops, and the runs agree from there |
| Skip.SkipTakesMore | json.c:519-531 | On its own the skip takes a text that the parser rejects |
| Growth.RunGrows | json.c:109-160 | Along an accepting run each node's row stays within its final row: parents and kinds never change, complete scalars never change, lengths and name bytes never exceed what was measured |
| Growth.StepGrows | json.c:263-773 | The same for one step |
| Growth.ChildCountBound | json.c:766-767 | In no state has a container more children than `uint_max` |
| Table.AttachedRows | json.c:741-769 | Attaching a value adds its index to its container and changes no other node |
| Representation.PushdownInvariant | json.c:400-444 | Whenever the loop comes round, the parent links from `top` meet exactly the open containers with their kinds and counts; `need_colon` implies `seek_value` with an object on top; `escaped` implies `string`; where a key may start, every key has its value |
| Representation.NoEarlyValue | json.c:418-444 | While `need_comma` or `need_colon` is set only the comma or colon, white space and a closing bracket are taken, and no node is created |
| Soundness.LeadingBracket | json.c:407-410 | The parser meets a ']' while `top` is null exactly when that is the first byte that is no white space |
| Representation.CounterBound | json.c:288-289 | String length and child counts stay below 2^32 even after one more increment |
| Parser.Parser.FinishNumber | json.c:704-713 | At the end of a number the node holds the token's value, sign included, and the byte that ended it is processed again |
| Representation.SignApplied | json.c:704-710 | Negating the magnitude, wrapped or as a double, gives the token's value |
| Representation.BeforeExponent | json.c:652-692 | At the end of the integer part or fraction the node's number and the registers stand for the token |
| Representation.AfterExponent | json.c:694-702 | At the end of an exponent the scaled number is the token's value |
| Representation.StorePop | json.c:109-161 | Popping in the second pass meets the very node created there; the unvisited rest of the chain stays as the first pass left it although visited objects reuse the link field |
| Representation.StoreAppend | json.c:163-179 | A new node extends the chain, and the memory of the first pass remains the image of the table |
| Layout.FilledByte | json.c:189-190 | In the second pass every byte of a string or key lands inside its block, right behind the bytes written before |
| Layout.StoreCloseKeySecond | json.c:376-384 | Terminating a key and recording where its name starts stay inside the object's block; every name, the new one included, reads back at its offset with its terminator and starts where the one before ends |
| Layout.FitsLaid | json.c:380-383 | In every state of the second pass the names of an object are in order and do not overlap |
| Layout.StoreCloseKeyFirst | json.c:376-377 | The key bytes counted in the `values` field are the total size of the names |
| Layout.StoreCloseString | json.c:359-372 | The terminator lands inside the string's block and the length is that of its bytes |
| Layout.StoreAttach | json.c:741-769 | The child lands in the next slot of its container's block, inside the block |
| Layout.StoreBeginKey | json.c:578-583 | A key starts where the names written so far end; the first pass writes nothing through the stale pointer |
| Layout.MeasuredIsUnfilled | json.c:775 | What the first pass leaves is what the second expects to start from |
| Layout.ChainLeft | json.c:111-112 | In the second pass the chain is empty exactly when every node has been visited |
| Built.BuiltTree | json.c:248-778 | After the second pass memory holds the text's tree: each string has its measured length and terminator, each container its measured count, each object its names in order and without overlap up to the end of the block; live nodes and blocks are those of the tree |
| Memory.SameTree | json.h:80-157 | Memory determines the tree: two trees held at one address are the same |
| Built.DeliveredOnce | json.h:80-157 | Memory determines the value that has been delivered |
| Built.TreeHolds | json.c:119-154 | The same for each subtree, by induction |
| Built.TreeAccounts | json.c:163-179 | Each node and each block of the tree is freed once, and there are no others |
| Built.BuiltValue | json.c:248-778 | The tree in memory denotes the meaning of the syntax tree |
| Memory.Heap.FreeTree | json.c:827-875 | For every well-formed tree: terminates, frees each node and each block of the tree once, touches nothing else, and reads no freed node |
| Memory.Heap.FreeStep | json.c:834-875 | One trip round the destructor's loop keeps the work list and lowers the measure 2 * (left to free) - depth |
| Memory.Heap.Descend | json.c:838-859 | Going down decrements the length, reads the last child left, and leaves the same work to do |
| Memory.Heap.Release | json.c:840-874 | A node without children left is freed after its block, and its parent is next |
| Memory.ChildrenFirst | json.c:838-874 | In the order of freeing, everything of a container's children comes before its block and its node |
| Memory.BlockFirst | json.c:840-874 | In the order of freeing, the block of a container or string comes before its node |
| Memory.Heap.FreeChain | json.c:805-813 | The failure path frees every node of the chain once, in creation order, reading each link before freeing its node |
| Memory.Heap.JsonAlloc | json.c:89-101 | A request is granted exactly when the sizes granted so far and it keep to the limit and to the counter and `mem_alloc` succeeds; `used_memory` is their sum until a refusal; no subtraction or addition wraps |
| Memory.Heap.AppendNode | json.c:163-177 | A zeroed node linked behind the last one, its size requested and counted; or a refusal that changes no node |
| Memory.Heap.PlaceBlock | json.c:117-158 | The popped node's block has the measured size, which has been requested and counted, and the node's length starts again at 0; or that request has been refused |
| Parser.Parser.NewValue | json.c:103-180 | In either pass the new node is on top and is the next row of the table, and all requests so far are those of the rows; or the next request has been refused |
| Parser.Parser.Body | json.c:261-773 | One trip round the loop performs the machine's step, or several of them where the second pass skips a number; the variables represent the state reached. A failure is a rejection by the machine and occurs in the first pass only; lack of memory is the refusal of the request that comes next |
| Parser.Parser.Pass | json.c:248-773 | A pass ends with the table of the whole text when the text is accepted and no request is refused; the second pass then leaves the chain empty and never meets a syntax or overflow exit; lack of memory is the refusal of a request that the text makes |
| Parser.Parser.Measure | json.c:248-256 | After the first pass the chain is measured and ready for the second, or empty, the text rejected or a request of the text refused |
| Parser.Parser.StringByte | json.c:281-398 | A byte inside a string or key: the machine's step, or the completed string |
| Parser.Parser.EscapedByte | json.c:291-349 | The byte after a backslash adds what the item denotes |
| Parser.Parser.UnicodeEscape | json.c:302-340 | Four hexadecimal digits add the bytes of their unit; anything else is a failure, and nothing beyond the sentinel is read |
| Parser.Parser.AddUnit | json.c:316-340 | The pass counts, or writes, exactly the encoding of the unit |
| Parser.Parser.CloseKey | json.c:374-387 | The end of a key |
| Parser.Parser.CloseString | json.c:359-372 | The end of a string value |
| Parser.Parser.SeekValue | json.c:400-446 | White space, a closing bracket, a comma, a colon or the start of a value, as the machine decides |
| Parser.Parser.StartValue | json.c:446-556 | Each way in which a value starts |
| Parser.Parser.MatchLiteral | json.c:475-503 | The letters of a literal are matched exactly, without reading past the end |
| Parser.Parser.SkipNumber | json.c:517-531 | The loop stops where the skip of the model ends |
| Skip.SkipEndIff | json.c:517-531 | A place is the end of the skip exactly when all bytes passed are of `[0-9+-eE.]` and it is the first other byte, or the end |
| Parser.Parser.SecondNumber | json.c:512-533 | The second pass leaves the number's node complete and stops where the first pass stopped |
| Parser.Parser.InObject | json.c:563-604 | A byte where a key may start |
| Parser.Parser.NumberByte | json.c:606-713 | A byte of a number in the first pass |
| Parser.Parser.Attach | json.c:726-772 | A complete value joins its container in the next slot, or ends the text's value; the count is checked |
| Parser.Parser.Bottom | json.c:720-772 | The byte to process again and the value to attach |
| Parser.Parser.AfterValue | json.c:265-279 | After the value only white space, then the end |

## Left out

- Relaxed commas (`json.c:411`, `json.c:572`): the setting is fixed to 0.
- Platforms whose `char` is unsigned, and the negative arguments that `isdigit` gets where it is signed: bytes from 128 on are no digits.
- Error texts, line numbers and columns: only success, syntax error and lack of memory are told apart.
- Parser.Parser.SeekValue: a `]` before any container is opened reads through the null pointer `top` at `json.c:409`; the model treats it as a failure. `Soundness.LeadingBracket` says exactly which texts do this.
- Numbers.IntegerStoredIff: `json_int_t` is signed, so leaving its range is undefined in C; the model wraps around. `Numbers.IntegerWithoutOverflow` says exactly when this assumption is not used.
- Parser.Parser.ParseEx: says nothing about memory after an allocation failure in the second pass, because the node in progress is then neither on the chain nor attached; the cleanup of that case (`json.c:808-816`) is not modelled.
- `int values_size` (`json.c:107`) and the total size of an object's block are unbounded, so their overflow for huge objects is not modelled.
- A zero-size allocation succeeds; custom allocator callbacks are abstracted to an oracle that lets the n-th call succeed or fail.
- Doubles are exact reals; `pow` and IEEE rounding are not modelled.
- Pairs of surrogates: the code encodes each unit by itself, and so does the model.
- `num_digits` is unbounded and `long` is taken to have 64 bits.
- Memory is a map from addresses to node and block values. Addresses are allocation order, a block is named after its owner, and memory starts empty: one heap serves one parse, and the model does not capture pointers into unrelated memory.
- The C++ operators and conversions of `json.h`, and `json_value_free`, which only fills in the default allocator.
- The other files of the repository: database, chat and login code and declarations.
