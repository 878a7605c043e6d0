# sloth-lang core, modelled in Dafny

sloth-lang is a small scripting language. It is implemented in Rust as three stages:
- a scanner (`src/compiler/scanner.rs`);
- a one-pass Pratt parser that emits bytecode (`src/compiler/parser.rs`);
- a stack-based bytecode VM with a mark-and-sweep collector (`src/vm.rs`, `src/lib.rs`).

Around the VM sit a string interning pool (`src/interned_string.rs`), a fiber (coroutine) library (`src/fiber.rs`) and two native collection helpers (`src/vec.rs`, `src/extension_methods.rs`). `tests/fib.py` holds the reference Fibonacci program that the Rust tests also run as sloth source.

## Modules

Each module is a functional state machine. Its state is an immutable datatype, and each operation is a pure function or method from the old state to the new one. Raw pointers are addresses into maps, and freeing an object removes its address. A Rust panic (an `unwrap` on nothing, an index out of range, a read through a freed pointer, a `usize` underflow) is an explicit `Panic` result.

| module | file | models |
|---|---|---|
| `Tokens` | tokens.dfy | the `Token` enum, `is_assign`, `is_op_assign` |
| `Scanner` | scanner.dfy | `ScannerCtx` and its whole lexing loop |
| `Bytecode` | bytecode.dfy | `Value`, `Chunk`, `Instr`, `UpValueDecl` and the `PartialEq` of values and chunks |
| `Parser` | parser.dfy | `ParserCtx`: precedence, name resolution, constant pool, scopes, every parse routine |
| `StringPool` | strpool.dfy | `StringPool::creat_istring` and the `IString` handle's clone, drop and eq |
| `Heap` | heap.dfy | the GC objects, `mark`/`demark`, and dictionary entries as a `HashMap` |
| `Gc` | gc.dfy | `mark_proc`, `mark_children`, the sweep, and `Vm::run_gc` |
| `Vm` | vm.dfy | `Vm::new` and one function per instruction of `Vm::run`, plus `Step` and a fuelled `Run` |
| `Runtime` | runtime.dfy | the newer VM interface used by the fiber and native libraries: a fiber table, the current fiber's stack (`get_stack`) and the objects they touch |
| `Fibers` | fiber.dfy | the seven fiber natives, with the invariant that exactly one fiber runs |
| `Natives` | natives.dfy | `vec_u8_create/set/get` and `array_push` |
| `Fib` | fib.dfy | `fib` and the array-filling `fib1` of `tests/fib.py` |

Numbers are Dafny `real`s. A Rust `as usize` cast becomes the floor, with a negative value giving 0.

## What the code does, as written

**The parser is modelled as written.**
- `consume` checks the lookahead but never advances.
- The `nil` prefix case emits `PushNil` without advancing.

The parse routines take a `Consuming` mode. `AsWritten` is the source. `Advancing` is the variant where `consume` also steps over the token it checked. A contract with no mode condition holds in both modes. A clause guarded by `m == AsWritten` describes the source alone. With `AsWritten`:
- `return`, `except`, `if`, `while`, `var`, `function`, `array(...)` and `dict(...)` all fail at their second expected token.
- A `{` block recurses on the same token until the fuel bound runs out.
- So `parse` succeeds only on input with no statement before the end or a `}` (`Parser.Parse`, `Parser.ParseProg`).
- `run_string` (src/lib.rs:41-45) ignores a parse error spelled "EOF". No parse routine produces that string, so that path is never taken.

**The jump layout is stated separately from the parse routines.** `Parser.WhilePatchOffsets` and `Parser.IfPatchOffsets` state it for the patching code on its own. As written, `parse_if` never reaches that code.

**`Jump(0)`.** As written, an `if` without `else` leaves its `Jump(0)` unpatched. In the VM that instruction jumps to itself, so the loop never ends (`Vm.JumpZeroStalls`). The comment at src/compiler/parser.rs:341-342 calls it a no-op. `Parser.ParseIf` patches it to `Jump(1)` instead, which moves on to the code after the `if` (see Findings).

**Scanning a string uses the corrected loop step.** As written, a backslash as the last character of the input stalls the string loop (see Findings). `Scanner.StringBody`, and through it `Scanner.ScanStep`, `Scanner.Scan` and `Scanner.Tokenize`, use the corrected step, which reports end of input there.

**`fib1(20)` returns 6765, which is `fib(19)`.** `fib1` returns `arr[19]` after filling indices 2..19, so the result is 6765 (`Fib.Fib1At20`). The value 4181 is `fib(18)`, which would be `arr[18]`. The model follows the code.

## Model

| member | source | states |
|---|---|---|
| Tokens.AssignKinds | src/compiler.rs:83-96 | `is_assign` holds exactly for `=`, so compound assignments are not assignments. `is_op_assign` holds exactly for the five `op=` tokens. No token is both. |
| Scanner.Init | src/compiler/scanner.rs:20-36 | A new scanner starts at row 1 with no tokens or positions. |
| Scanner.Peek | src/compiler/scanner.rs:260-266 | It is the character under the cursor, or nothing at the end of input. |
| Scanner.PeekN | src/compiler/scanner.rs:268-274 | It is the character n-1 places ahead, or nothing past the end. |
| Scanner.Advance | src/compiler/scanner.rs:276-284 | The cursor moves by exactly one. `row` grows by one exactly when the consumed character is a line feed, and the column resets then. The row keeps counting line feeds. |
| Scanner.AdvanceN | src/compiler/scanner.rs:276-284 | n advances move the cursor by n, leave the output alone and keep the row count. |
| Scanner.EmitToken | src/compiler/scanner.rs:285-287 | Each token push is paired with exactly one position, the current (row, col). |
| Scanner.SkipComment | src/compiler/scanner.rs:95-103 | A `//` comment skips to the next line feed, leaving it unconsumed, and emits nothing. |
| Scanner.IdentTail | src/compiler/scanner.rs:288-309 | It consumes the maximal run of alphanumerics and `_`, and returns exactly those characters. |
| Scanner.Identifier | src/compiler/scanner.rs:288-309 | An identifier lexeme starts with a letter or `_`, continues with identifier characters, and is maximal. |
| Scanner.WordTokenIsKeywordOrSymbol | src/compiler/scanner.rs:45-64 | A word in the keyword table becomes its keyword token. Any other word becomes a `Symbol` carrying the word. |
| Scanner.NumberRun | src/compiler/scanner.rs:310-333 | A number lexeme is the maximal run of digits and dots. |
| Scanner.Number | src/compiler/scanner.rs:310-333 | On success it returns the lexeme and stops at the first non-number character. Failure is always "illegal number format". |
| Scanner.NumberFailsIffManyDots | src/compiler/scanner.rs:310-333 | A number fails exactly when its run holds two or more dots. |
| Scanner.IllegalNumberExample | src/compiler/scanner.rs:310-333 | `1.2.3` is an illegal number. |
| Scanner.StringStep | src/compiler/scanner.rs:337-368 | One string-loop iteration either advances, or closes at a `"` having consumed it, or fails. |
| Scanner.StringBody | src/compiler/scanner.rs:336-375 | A successful string body advances and keeps the token output. It runs the corrected step, so `"\` fails with end of input instead of looping. |
| Scanner.StringLiteral | src/compiler/scanner.rs:334-375 | A string literal starting at `"` that succeeds ends past its closing quote. |
| Scanner.DecodeLiteralEndsAtQuote | src/compiler/scanner.rs:341-343 | The reference decoder stops just after a `"`, and its text is shorter than the input it consumed. |
| Scanner.StringBodyMatchesDecode | src/compiler/scanner.rs:336-375 | The scanner's string loop succeeds exactly when the reference decoder does, with the same text and the same end position. |
| Scanner.StringFailureMatchesDecode | src/compiler/scanner.rs:354-371 | Whenever one loop step fails, the reference decoder fails on the same input. |
| Scanner.StringMoreMatchesDecode | src/compiler/scanner.rs:344-367 | A step that continues consumes one plain character or one escape pair. The decoder's result splits the same way. |
| Scanner.DecodeQuote | src/compiler/scanner.rs:344-363 | Quoting any text with the six escapes and decoding it gives the text back. |
| Scanner.StringLiteralDecodesQuote | src/compiler/scanner.rs:334-375 | Scanning `"` + quote(x) + `"` yields x and ends after the closing quote. |
| Scanner.StringBodyFailsWithoutQuote | src/compiler/scanner.rs:369-371 | Input with no `"` before the end is an error, never a string. |
| Scanner.UnknownEscapeFails | src/compiler/scanner.rs:354-358 | A backslash followed by anything other than the six escapes is "unsupported escaped character". |
| Scanner.StringLoopStuckOnTrailingBackslash | src/compiler/scanner.rs:344-363 | As written, a backslash that is the last input character leaves the loop where it was, so the loop never ends. |
| Scanner.StringStepRepairsOnlyTrailingBackslash | src/compiler/scanner.rs:344-363 | The corrected step fails with end-of-input in exactly that case and agrees with the code everywhere else. |
| Scanner.MatchPunct | src/compiler/scanner.rs:130-236 | A punctuation match is 1 to 3 characters long and lies within the input. |
| Scanner.MatchPunctSpellsToken | src/compiler/scanner.rs:131-226 | The matched characters spell exactly the returned operator's lexeme in the operator table. |
| Scanner.MatchPunctIsLongest | src/compiler/scanner.rs:131-226 | No operator that is a prefix of the input is longer than the match, so `..=` and `...` beat `..`, and `!=` beats `!`. |
| Scanner.MatchPunctNoneIffNoOperator | src/compiler/scanner.rs:228-236 | Punctuation fails exactly when no operator is a prefix of the input, as with a lone `!`. |
| Scanner.ScanStep | src/compiler/scanner.rs:89-245 | One loop iteration ends exactly at end of input. Otherwise it advances, appends at most one token with exactly one position, and keeps the earlier tokens. Strings go through the corrected string step. |
| Scanner.Scan | src/compiler/scanner.rs:44-247 | A finished scan has consumed the whole input and extends the earlier tokens. Tokens and positions keep equal length, and the final row is one plus the number of line feeds. Strings go through the corrected string step. |
| Scanner.Tokenize | src/compiler/scanner.rs:44-247 | From a fresh scanner, tokens and positions have equal length and the row counts the line feeds. Empty input scans to nothing. Strings go through the corrected string step. |
| Scanner.ScanStepComment | src/compiler/scanner.rs:95-103 | At `//` the step continues and appends no token and no position. |
| Scanner.ScanStepNumber | src/compiler/scanner.rs:104-108 | At a digit the step appends a `Number` of the maximal run of digits and dots, ending after it, exactly when that run has at most one dot. Otherwise it stops with "illegal number format". |
| Scanner.ScanStepWord | src/compiler/scanner.rs:109-122 | At a letter or `_` the step appends the keyword or `Symbol` of the maximal identifier run and ends after the run. |
| Scanner.InternTokens | src/compiler/scanner.rs:109-129 | Interning the texts of the `String` and `Symbol` tokens in token order keeps the pool valid. Each such token holds a handle to a live entry with its text, and no other token holds one. |
| Scanner.InternKeepsHandles | src/compiler/scanner.rs:123-127 | Interning one more text keeps every handle already held standing for its text, and the new handle holds the new text. |
| Scanner.HandlesShareText | src/interned_string.rs:63-72 | In a valid pool, two held handles are equal exactly when their tokens carry the same text. |
| Scanner.TokenizeWithPool | src/compiler/scanner.rs:109-129 | With the pool threaded through, the scan succeeds exactly when `Tokenize` does, with the same tokens. The final pool is valid, each `String` and `Symbol` token holds a handle to its text, and two handles are equal exactly when their texts are. |
| Scanner.ScanStepString | src/compiler/scanner.rs:123-129 | At `"` the step continues exactly when the reference decoder accepts the rest. It then appends a `String` of the decoded text and ends where the decoder does. |
| Scanner.ScanStepPunct | src/compiler/scanner.rs:130-236 | At other punctuation the step appends the longest matching operator with the current position and skips its characters. With no operator it stops with the reserved-punctuation error. |
| Scanner.ScanStepWhitespace | src/compiler/scanner.rs:237-239 | Whitespace is skipped one character at a time, appending nothing. |
| Scanner.ScanStepUnsupported | src/compiler/scanner.rs:240-243 | Any other character stops the scan with the unsupported-character error at the current position. |
| Scanner.CommentSkipsToLineEnd | src/compiler/scanner.rs:95-103 | On `// x = 1;\nvar`, one step stops at the line feed with no token. |
| Bytecode.AsIndex | src/vm.rs:343-358 | `f64 as usize` is the floor of a non-negative number and 0 for a negative one. |
| Bytecode.Nils | src/vm.rs:693-697 | Reserving n locals gives n `Nil`s. |
| Bytecode.EmptyChunk | src/lib.rs:215-224 | The default chunk is empty, with no parameters and no locals. |
| Bytecode.ValueEqIsIdentityExceptChunks | src/lib.rs:225-229 | Value equality is structural identity, except that a chunk equals nothing, itself included. So equality is symmetric but not reflexive on chunks. |
| Heap.Mark | src/lib.rs:76-88 | `mark` sets the flag and leaves the contents alone. |
| Heap.Demark | src/lib.rs:76-88 | `demark` clears the flag and leaves the contents alone. |
| Heap.MarkDemarkFlags | src/lib.rs:76-88 | Marking and demarking are idempotent, and each is a no-op when the flag already has its target value. |
| Heap.KeyIndex | src/vm.rs:343-358 | A key's index, when found, is within the entries. |
| Heap.KeyIndexFindsFirst | src/vm.rs:343-358 | The found index holds the key and is its first occurrence. Not found means no entry has the key. |
| Heap.LookupFindsFirst | src/vm.rs:343-358 | `HashMap::get` succeeds exactly when some entry has the key, and yields the first such entry's value. |
| Heap.Insert | src/vm.rs:415-422 | An insert grows the entries by at most one. |
| Heap.InsertLookup | src/vm.rs:415-422 | `HashMap::insert` keeps keys unique and makes the key map to the new value. Other keys are unchanged. The size grows only for a new key. |
| Heap.InsertReads | src/vm.rs:415-422 | Reading after an insert gives the new value for that key and the old lookup for any other. |
| Heap.LookupConcat | src/vm.rs:343-358 | A lookup in two concatenated entry lists finds the first list's binding before the second's. |
| Heap.ClosureEqIgnoresCaptures | src/lib.rs:248-252 | Closure equality is an equivalence. It compares only the chunk pointer, so two closures of one chunk are equal whatever they capture. |
| Gc.TracedRefs | src/lib.rs:97-139 | The addresses a value list traces are exactly the targets of its heap values. Errors count only when traced. |
| Gc.UnmarkedShrinks | src/lib.rs:97-139 | Marking an unmarked object removes exactly it from the unmarked set, so the recursion terminates on cycles. |
| Gc.MarkRef | src/lib.rs:97-139 | Marking only sets flags, never unmarks, and leaves the target marked. |
| Gc.MarkValue | src/lib.rs:97-139 | Marking a value only sets flags and leaves a traced value's target marked. |
| Gc.MarkChildren | src/lib.rs:141-182 | Marking children only sets flags and never grows the unmarked set. |
| Gc.MarkValues | src/lib.rs:153-160 | Marking an element list only sets flags. |
| Gc.MarkUpvalues | src/lib.rs:161-174 | Marking a closure's upvalue objects only sets flags. |
| Gc.MarkValuesCloses | src/lib.rs:153-160 | After marking a list, every traced element is marked and no marked object has an unmarked child, except pending ones. |
| Gc.MarkUpvaluesCloses | src/lib.rs:161-174 | After marking a closure's upvalues, each is marked and the marked set stays closed. |
| Gc.MarkChildrenCloses | src/lib.rs:141-182 | Marking an object's children resolves it from the pending set. |
| Gc.MarkRefCloses | src/lib.rs:97-139 | Marking from an address keeps the marked set closed under children. |
| Gc.MarkValueCloses | src/lib.rs:97-139 | Marking from a value keeps the marked set closed under children. |
| Gc.MarkRoot | src/vm.rs:782-814 | A root is marked and its children visited even when it was already marked. Only flags change. |
| Gc.MarkRoots | src/vm.rs:782-814 | Marking the stack roots leaves every traced stack value's target marked. |
| Gc.MarkRefs | src/vm.rs:782-814 | The corrected collector's extra root loop, over the open-upvalue list, leaves each listed upvalue marked. The collector as written has no such loop. |
| Gc.MarkRootsCloses | src/vm.rs:782-814 | Marking the stack roots keeps the marked set closed under children. |
| Gc.MarkRefFrom | src/lib.rs:97-139 | Every object that marking from an address newly marks is reachable from that address through child links. |
| Gc.MarkValueFrom | src/lib.rs:97-139 | Every object newly marked from a value is reachable from its target, and nothing is marked from an untraced value. |
| Gc.MarkChildrenFrom | src/lib.rs:141-182 | Every object newly marked while visiting children is reachable from one of the children. |
| Gc.MarkValuesFrom | src/lib.rs:153-160 | Every object newly marked from an element list is reachable from a traced element. |
| Gc.MarkUpvaluesFrom | src/lib.rs:161-174 | Every object newly marked from a closure's upvalues is reachable from one of them. |
| Gc.MarkRootsFrom | src/vm.rs:782-814 | Every object newly marked from the stack roots is reachable from a traced stack value. |
| Gc.MarkRefsFrom | src/vm.rs:782-814 | Every object newly marked from the open-upvalue list is reachable from an entry of it. |
| Gc.ExactlyReachable | src/vm.rs:782-821 | If marking started from nothing marked, marked every source, only set flags, left the marked set closed and marked only reachable objects, then an object is marked exactly when it is reachable. |
| Gc.MarkRootsMarksReachable | src/vm.rs:782-814 | From a heap with nothing marked, marking the stack roots marks exactly the objects reachable from the traced stack values. |
| Gc.MarkRepairedMarksReachable | src/vm.rs:782-814 | From a heap with nothing marked, the corrected marking marks exactly the objects reachable from the stack or the open-upvalue list. |
| Gc.Sweep | src/vm.rs:815-821 | The sweep keeps exactly the marked objects, each demarked. |
| Gc.RunGc | src/vm.rs:778-823 | Below 128 objects nothing changes. Otherwise, from a heap with nothing marked, exactly the objects reachable from the stack's traced values survive, with `Error` values not traced. Each survivor is unmarked and keeps its contents. |
| Gc.RunGcRepaired | src/vm.rs:778-823 | The corrected collector obeys the same threshold. Above it exactly the objects reachable from the stack, `Error` dictionaries included, or from the open-upvalue list survive. |
| Gc.SweepClosed | src/vm.rs:815-821 | If the marked set was closed under children, no survivor points at a freed object. |
| Gc.RunGcRepairedNoDangling | src/vm.rs:778-823 | The corrected collector, which traces Error dictionaries and treats open upvalues as roots, never leaves a root or a survivor pointing at a freed object. |
| Gc.RunGcNoDanglingWithoutErrors | src/vm.rs:778-823 | The collector as written leaves nothing dangling when no Error values or open upvalues are involved. |
| Gc.RunGcFreesErrorDictionary | src/vm.rs:782-814 | As written, the dictionary behind an `Error` value on the stack is freed. |
| Gc.RunGcFreesOpenUpvalue | src/vm.rs:782-814 | With a closure on the stack and a second upvalue held only by the open-upvalue list, the collector as written keeps the closure's upvalue but frees the second. The corrected collector keeps both. |
| Vm.Init | src/vm.rs:62-87 | The VM starts with one frame at pc 0 and bottom 0, one `Nil` per top-level local, an empty heap and no open upvalues. |
| Vm.NextPc | src/vm.rs:768-771 | `pc_add` increments only the current frame's pc. |
| Vm.PopNumbers | src/vm.rs:699-712 | It succeeds exactly when both top values are numbers, and returns them in push order. |
| Vm.PopBools | src/vm.rs:714-727 | It succeeds exactly when both top values are booleans, and returns them in push order. |
| Vm.RustRem | src/vm.rs:127-136 | Rust's integer `%` is smaller than the divisor in magnitude and takes the dividend's sign. |
| Vm.NumberOp | src/vm.rs:104-161 | Non-numbers are a TypeError. `Div` and `Mod` raise ArithmError exactly when the divisor is below 1e-5. Success replaces two operands by one result and advances the pc; `Add` pushes the sum. |
| Vm.NegateOp | src/vm.rs:137-141 | Negate fails exactly on an empty stack or a non-number, and otherwise replaces the top by its negation. |
| Vm.LogicOp | src/vm.rs:174-183 | `And`/`Or` fail exactly when the top two values are not booleans, and otherwise push their conjunction or disjunction. |
| Vm.EqualityOp | src/vm.rs:162-173 | `Eq`/`Ne` replace the top two values by their (negated) value equality, and panic only when fewer than two values are present. |
| Vm.GetLocalOp | src/vm.rs:259-265 | It pushes the local at frame bottom + x, and panics exactly when that slot is outside the stack. |
| Vm.SetLocalOp | src/vm.rs:266-272 | It copies the top into slot bottom + x without popping, and leaves every other slot alone. |
| Vm.GetGlobalOp | src/vm.rs:254-258 | It pushes global x, and panics exactly when x is out of range. |
| Vm.GetUpvalueOp | src/vm.rs:744-753 | It pushes a closed upvalue's value, or the stack slot an open upvalue points to. |
| Vm.SetUpvalueOp | src/vm.rs:755-766 | Setting an upvalue keeps the stack height and the allocated addresses. |
| Vm.SetThenGetUpvalue | src/vm.rs:744-766 | Reading an upvalue right after setting it yields the value that was set. |
| Vm.Index | src/vm.rs:301-387 | Indexing raises TypeError exactly when the index kind does not fit the collection: numbers for arrays and vectors, strings for dictionaries and errors. |
| Vm.DictGet | src/vm.rs:343-358 | A dictionary read fails exactly on a non-string key, with TypeError. |
| Vm.Assign | src/vm.rs:388-450 | Assignment allocates nothing. Anything but an array, dictionary or error is a TypeError. |
| Vm.DictSet | src/vm.rs:415-422 | A dictionary write fails exactly on a non-string key. |
| Vm.GetCollectionOp | src/vm.rs:301-387 | It replaces the collection and the index by the indexed value, or raises the indexing error. |
| Vm.SetCollectionOp | src/vm.rs:388-450 | It pops collection, index and value and applies the assignment, or raises its error. |
| Vm.ArrayIndexing | src/vm.rs:343-358 | A negative array index fails for both get and set. Reading past the end yields `Nil`, writing past the end is IndexOutOfBound, and a read in range yields the element. |
| Vm.AssignThenIndex | src/vm.rs:388-450 | A read after a successful write yields the written value. Other array slots and other dictionary keys read as before. |
| Vm.DictAssignGrowsOnNewKey | src/vm.rs:415-422 | A string-keyed dictionary write always succeeds, keeps keys unique, and grows the dictionary only for a new key. |
| Vm.NewArrayKeepsPushOrder | src/vm.rs:656-670 | `new_array(n)` removes the top n values and the array holds them in push order. |
| Vm.BuildDictSucceeds | src/vm.rs:671-691 | `new_dict(n)` succeeds exactly when every pushed key is a string. |
| Vm.BuildDictKeysUnique | src/vm.rs:671-691 | A built dictionary never holds a key twice, given a starting dictionary without repeats. |
| Vm.NewDictEarliestPairWins | src/vm.rs:671-691 | Pairs are popped from the top, so for a repeated key the earliest-pushed pair's value survives. |
| Vm.Collect | src/vm.rs:283-300 | The collection before an allocation runs `run_gc` as written. It keeps the stack, frames and next address and only frees objects. Above the threshold exactly the objects reachable from the stack survive, with `Error` values not traced. |
| Vm.InitArrayOp | src/vm.rs:289-294 | It panics exactly with fewer than n values. Otherwise, after the as-written collection, the top n values are replaced by a fresh array holding them in order. |
| Vm.InitDictOp | src/vm.rs:295-300 | It panics exactly when the 2n top values are missing or a key is not a string. Otherwise, after the as-written collection, they are replaced by a fresh dictionary built from them. |
| Vm.InitMatrixOp | src/vm.rs:283-288 | After the as-written collection, it pushes a fresh rows×cols matrix of zeros. |
| Vm.InitArrayFreesErrorDictionary | src/vm.rs:289-294 | Once the heap reaches the threshold, `InitArray(0)` frees the dictionary behind an `Error` value still on the stack. |
| Vm.JumpOp | src/vm.rs:451-455 | It moves the pc by the offset and leaves the stack alone. |
| Vm.JumpOneFallsThrough | src/vm.rs:451-455 | `Jump(1)` moves the current frame to the next instruction and changes neither the stack nor the frames below. |
| Vm.JumpIfNotOp | src/vm.rs:456-471 | A non-boolean top is a TypeError. Otherwise it pops the condition and moves the pc by 1 on true and by the offset on false. |
| Vm.CallOp | src/vm.rs:472-530 | It panics when the callee slot is missing. A callee that is neither a closure nor a native is a CallError. |
| Vm.CallClosure | src/vm.rs:472-488 | A closure call fails with CallError exactly when the argument count differs from `parameter_num`. Otherwise the caller's pc advances, the new frame starts at the first argument, and `num_locals - parameter_num` Nils are pushed. |
| Vm.FindOpen | src/vm.rs:208-228 | The open-upvalue search returns an upvalue open on that slot, or none exists. |
| Vm.CaptureOne | src/vm.rs:208-240 | Capturing a local yields an upvalue open on its absolute slot. Capturing an enclosing upvalue fails only when its index is out of range. |
| Vm.Capture | src/vm.rs:206-245 | Capturing yields one upvalue per declaration and leaves the stack and frames alone. |
| Vm.LoadOp | src/vm.rs:200-253 | A constant index out of range panics. A non-chunk constant is pushed as it is. |
| Vm.CaptureOneKeepsOpenUnique | src/vm.rs:208-228 | Capturing keeps at most one open upvalue per stack slot. |
| Vm.CaptureKeepsOpenUnique | src/vm.rs:206-245 | Loading a closure keeps at most one open upvalue per stack slot. |
| Vm.CaptureSharesOpenUpvalue | src/vm.rs:208-228 | Two captures of the same slot share one upvalue object. |
| Vm.CaptureOneListsLocal | src/vm.rs:631-640 | A captured local's upvalue is on the open list. |
| Vm.FindOpenUnique | src/vm.rs:208-228 | With at most one open upvalue per slot, the search finds exactly that upvalue. |
| Vm.CloseUpvalues | src/vm.rs:585-603 | Closing upvalues allocates and frees nothing. |
| Vm.CloseUpvaluesEffect | src/vm.rs:585-603 | Return closes every open upvalue whose slot is at or above the frame bottom, with the slot's current value, and drops it from the open list. Every other object is unchanged. |
| Vm.Kept | src/vm.rs:585-603 | The remaining open list is exactly the open upvalues below the frame bottom. |
| Vm.Unwind | src/vm.rs:605-618 | Unwinding panics exactly when a value should be popped from an empty stack. |
| Vm.UnwindHeight | src/vm.rs:605-618 | The stack is cut to the frame bottom, and its top is the returned value, or `Nil` when nothing was pushed above the locals. |
| Vm.ReturnOp | src/vm.rs:582-622 | Return pops exactly the current frame and frees nothing. It finishes the program exactly when that was the last frame. |
| Vm.ReturnClosesAndUnwinds | src/vm.rs:582-622 | A return closes exactly the escaping upvalues and leaves every other object alone. It leaves the stack at the frame bottom with the return value or `Nil` on top. |
| Vm.ReturnKeepsOpenUnique | src/vm.rs:582-622 | After a return, at most one open upvalue remains per slot, all below the old frame bottom. |
| Vm.ExceptOp | src/vm.rs:531-581 | Outside a protected call it fails with an Exception holding `info`, or empty when nothing was thrown. Inside one, the frame is popped and an Error dictionary with the same entries is pushed. |
| Vm.Step | src/vm.rs:88-627 | A step with no frame panics. |
| Vm.Run | src/vm.rs:88-91 | With no fuel left the run stops in the state reached. With fuel and no call frame, the first fetch panics, as `last_mut().unwrap()` does. |
| Vm.RunCompose | src/vm.rs:88-91 | Running f iterations and then g more is the same as running f + g: the loop carries nothing but the machine state, and a run that has left the loop stays left. |
| Vm.RunSettles | src/vm.rs:88-91 | Once the loop has finished, failed or panicked within f iterations, any larger fuel gives the same outcome, so the fuel bound never changes a final result. |
| Vm.JumpZeroStalls | src/vm.rs:451-455 | `Jump(0)` gives back the same state, so the loop makes no progress whatever the fuel. |
| Runtime.WithStack | src/fiber.rs:16-63 | Replacing the current stack changes only the current fiber. |
| Runtime.Push | src/extension_methods.rs:32 | A push puts the value on top of the current fiber's stack. |
| Runtime.PopValue | src/extension_methods.rs:19-22 | A pop fails exactly on an empty stack, and otherwise splits off the top. |
| Runtime.Drop | src/extension_methods.rs:20 | `let _ = pop()` drops the top if there is one. |
| Runtime.PushPopValue | src/extension_methods.rs:19-32 | A pop right after a push gives the value back and restores the VM. |
| Fibers.TakeArgs | src/fiber.rs:16-34 | Taking n arguments fails exactly with fewer than n values, and splits them off in order. |
| Fibers.PassValue | src/fiber.rs:65-77 | The value passed is the popped top when an argument is present, and `Nil` otherwise. |
| Fibers.PopFiber | src/fiber.rs:65-77 | It succeeds exactly when the top is a live fiber, and then removes it and the callee slot below it. |
| Fibers.BindArgs | src/fiber.rs:35-59 | A new fiber's stack holds the first `parameter_num` arguments, then `Nil` for the remaining locals. |
| Fibers.Leave | src/fiber.rs:81-91 | Leaving a fiber changes only its state. |
| Fibers.Enter | src/fiber.rs:81-91 | Entering a fiber makes it current and Running and changes no other fiber. |
| Fibers.CreatePops | src/fiber.rs:16-34 | create takes the closure from below its arguments, and the arguments in order. |
| Fibers.CreatePanics | src/fiber.rs:16-63 | create panics exactly when the closure or an argument is missing, or the callee is not a live closure. It also panics on an argument count the arity rule does not admit, or on fewer locals than parameters. |
| Fibers.CreateSpawns | src/fiber.rs:35-63 | A successful create spawns from the closure and the arguments after it. |
| Fibers.SpawnEffect | src/fiber.rs:35-63 | The new fiber has a fresh address and is Initial with no `prev`. Its stack binds the arguments and its frame packs the extras. Its handle is pushed, no other fiber changes, and exactly one fiber still runs. |
| Fibers.ResumeWakes | src/fiber.rs:65-93 | resume succeeds exactly when the target is a live Paused or Initial fiber. It wakes it with the passed value, or `Nil`. |
| Fibers.WakeEffect | src/fiber.rs:78-93 | The caller becomes Waiting and the target Running, with the caller as its `prev`. The value is pushed only if the target was Paused, and no other fiber changes. |
| Fibers.WakeValid | src/fiber.rs:78-93 | Waking keeps exactly one fiber running. |
| Fibers.YieldEffect | src/fiber.rs:95-113 | yield with no `prev` panics. Otherwise the current fiber becomes Paused, `prev` becomes Running and current and receives the passed value, and no other fiber changes. |
| Fibers.TransferSwitches | src/fiber.rs:115-139 | transfer succeeds exactly with no extra argument and a Paused or Initial live target. |
| Fibers.SwitchEffect | src/fiber.rs:115-139 | transfer makes the current fiber Paused, not Waiting, and leaves the target's `prev` alone. It pushes `Nil` only into a Paused target. |
| Fibers.SwitchValid | src/fiber.rs:115-139 | A transfer keeps exactly one fiber running. |
| Fibers.SetErrorEffect | src/fiber.rs:140-152 | set_error panics exactly without a `prev`. Otherwise the current fiber becomes Error, and `prev` becomes Running and current and receives `Nil`. |
| Fibers.CheckResult | src/fiber.rs:154-165 | check needs a live fiber on top and replaces it by whether its state is not Error. |
| Fibers.ResumableResult | src/fiber.rs:167-178 | resumable replaces the fiber by whether it is Paused or Initial. |
| Fibers.HandOverValid | src/fiber.rs:78-139 | Handing the CPU from the current fiber to a live one keeps exactly one fiber running. |
| Natives.ToByte | src/vec.rs:52-59 | `f64 as u8` floors a number in range, and sends negatives to 0. |
| Natives.Zeros | src/vec.rs:17-30 | A new vector is `length` zero bytes. |
| Natives.Operands | src/vec.rs:32-51 | Taking k operands fails exactly with fewer than k values, and splits off the top k. |
| Natives.VecCreateEffect | src/vec.rs:17-30 | create succeeds exactly with arity 1 and a number on top, and stores `length` zero bytes at a fresh address. |
| Natives.VecSetEffect | src/vec.rs:32-62 | set succeeds exactly with arity 3, a live vector, an index below the length and a value ≤ 255. It changes only byte idx, keeps the length and every other byte, and returns `Nil`. |
| Natives.VecGetEffect | src/vec.rs:64-86 | get succeeds exactly with arity 2, a live vector and an index below its length. It returns that byte and changes nothing. |
| Natives.GetAfterSet | src/vec.rs:59-83 | A get at the index just set returns the integral value 0..255 that was set. |
| Natives.ArrayPushEffect | src/extension_methods.rs:17-32 | array_push succeeds exactly with arity 1 and an Array receiver, and appends the value to it. |
| Natives.ArrayPushPops | src/extension_methods.rs:19-22 | The value, then the callee slot, then the receiver are popped. |
| Natives.AppendEffect | src/extension_methods.rs:24-32 | The array gains the value at its end, earlier elements are unchanged, no other array changes, and `Nil` is pushed. |
| StringPool.NewPool | src/interned_string.rs:60-62 | A new pool is empty and valid. |
| StringPool.Find | src/interned_string.rs:64-72 | The search returns a listed entry holding the string. |
| StringPool.FindNone | src/interned_string.rs:64-72 | The search fails exactly when no listed entry holds the string. |
| StringPool.Retain | src/interned_string.rs:80-91 | The clean-up never lengthens the list. |
| StringPool.RetainKeeps | src/interned_string.rs:80-91 | The clean-up keeps exactly the entries with a positive count, and keeps the list duplicate-free. |
| StringPool.RetainLast | src/interned_string.rs:80-91 | An entry at the end of the list with a positive count stays last. |
| StringPool.Inner | src/interned_string.rs:46-50 | `get_inner` succeeds exactly on a live handle. |
| StringPool.Clone | src/interned_string.rs:10-17 | Cloning succeeds exactly on a live handle. |
| StringPool.DropHandle | src/interned_string.rs:38-44 | Dropping succeeds exactly on a live handle with a positive count. |
| StringPool.InternExisting | src/interned_string.rs:63-72 | Interning a pooled string returns its entry and increments its count, with no clean-up. |
| StringPool.InternNew | src/interned_string.rs:73-91 | Interning a new string appends a fresh entry with count 1 and then drops every other entry whose count is 0. The new entry survives, last in the list. |
| StringPool.InternNewFresh | src/interned_string.rs:63-78 | A string not in the pool takes the fresh-entry path. |
| StringPool.AddFreshEffect | src/interned_string.rs:73-91 | The fresh-entry path appends an entry with count 1, removes exactly the zero-count entries, and changes no survivor. |
| StringPool.InternValid | src/interned_string.rs:63-93 | Interning keeps the pool valid, with no two live entries holding equal strings, and the handle reads back the string. |
| StringPool.AddFreshValid | src/interned_string.rs:73-91 | Adding a string not yet pooled keeps the pool valid. |
| StringPool.InternKeepsLive | src/interned_string.rs:63-93 | Interning keeps every entry that still counts a handle, with its string and a positive count. The returned handle's entry counts it. |
| StringPool.InternTwiceSame | src/interned_string.rs:63-72 | Interning a string twice gives equal handles. |
| StringPool.SameIffEqualContents | src/interned_string.rs:19-23 | Two live handles of a valid pool are equal exactly when their strings are equal. |
| StringPool.CloneDropCounts | src/interned_string.rs:10-44 | Clone increments the entry's count and dropping the clone restores the pool. Drop decrements the count and changes nothing else. |
| Parser.PrecedenceIsTotalOrder | src/compiler/parser.rs:4-17 | The precedence levels are strictly ordered Lowest < Or < And < Equal < Cmp < Term < Factor < Unary < Call < Primary < None. |
| Parser.FactorLevel | src/compiler/parser.rs:18-39 | Exactly `*`, `/` and `%` are at Factor, which binds tighter than Term. |
| Parser.TermLevel | src/compiler/parser.rs:18-39 | Exactly `+` and `-` are at Term. |
| Parser.BinaryOperatorLevels | src/compiler/parser.rs:18-39 | Every binary operator sits strictly between Lowest and Unary. |
| Parser.NonBinaryLevels | src/compiler/parser.rs:18-39 | Any other token with a level is a Primary or Call token, or `!`. |
| Parser.NewCtx | src/compiler/parser.rs:63-80 | A new parser is at token 0 and depth 0, with one empty chunk. |
| Parser.SetTop | src/compiler/parser.rs:48-60 | Replacing the innermost chunk keeps the context valid. |
| Parser.Peek | src/compiler/parser.rs:610-616 | It is the token at `ptr`, or nothing past the end. |
| Parser.Advance | src/compiler/parser.rs:634-636 | It moves `ptr` by one and changes nothing else. |
| Parser.ErrAt | src/compiler/parser.rs:606-608 | An error report reads the current position, and panics past the last token. |
| Parser.EofErr | src/compiler/parser.rs:618-624 | `peek_not_eof` at the end panics while building its message. |
| Parser.Consume | src/compiler/parser.rs:589-605 | It succeeds exactly when the lookahead is the expected token, and then does not move `ptr` as written. Otherwise it is the unexpected-token error. |
| Parser.ConsumeNeverAdvances | src/compiler/parser.rs:589-605 | A successful consume leaves the context unchanged as written, and advances once in the repaired mode. |
| Parser.ConsumeThenExpect | src/compiler/parser.rs:589-605 | As written, two consecutive consumes of different tokens always fail. Repaired, the second checks the next token. |
| Parser.LineAt | src/compiler/parser.rs:737-739 | `get_line` is the current token's row, and panics past the end. |
| Parser.EmitWithLine | src/compiler/parser.rs:649-652 | It appends the instruction and its line to the innermost chunk only. |
| Parser.Emit | src/compiler/parser.rs:638-647 | It appends the instruction to the innermost chunk and keeps code and lines the same length. |
| Parser.EmitKeepsLinesAligned | src/compiler/parser.rs:638-647 | After an emit every chunk has as many lines as instructions. The new line is the current row, or the token count past the end. |
| Parser.Patch | src/compiler/parser.rs:314-315 | Patching replaces exactly one instruction inside the code. |
| Parser.Position | src/compiler/parser.rs:659-663 | It returns the first constant equal to the value, or none exists. |
| Parser.LoadValue | src/compiler/parser.rs:658-669 | It emits one instruction, and a chunk constant is always appended, because chunks equal nothing. |
| Parser.LoadValueDedups | src/compiler/parser.rs:658-669 | It loads the first equal constant if one exists. Otherwise it appends the value and loads its index. The pool never gains a duplicate. |
| Parser.OpenEnv | src/compiler/parser.rs:360-365 | It pushes an empty chunk, symbol table and captured list together and increases the depth. |
| Parser.CloseEnv | src/compiler/parser.rs:367-373 | It pops the three together, returning the chunk with a `Return` on line 0. At depth 0 it panics. |
| Parser.OpenCloseEnv | src/compiler/parser.rs:360-373 | Closing right after opening restores the context and yields a chunk holding only `Return`. |
| Parser.AddAnonClosure | src/compiler/parser.rs:375-377 | It appends the chunk as a constant and emits nothing. |
| Parser.AddLocal | src/compiler/parser.rs:378-386 | A successful declaration adds one local and emits nothing. |
| Parser.AddLocalEffect | src/compiler/parser.rs:378-386 | It fails exactly on a name already in the current scope. Otherwise the new slot is the old local count, the count grows by one, a `false` flag is appended, and outer scopes are untouched. |
| Parser.FindUpvalue | src/compiler/parser.rs:674-680 | It returns the first upvalue declaration with the name, or none exists. |
| Parser.AddUpvalue | src/compiler/parser.rs:686-695 | It appends one declaration to one chunk. |
| Parser.Resolve | src/compiler/parser.rs:705-735 | `resolve` yields UpLocal, UpValue or NotFound and never touches deeper chunks. |
| Parser.MarkCaptured | src/compiler/parser.rs:707 | It sets exactly one captured flag. |
| Parser.Relay | src/compiler/parser.rs:719-734 | A hit in the enclosing scope adds an upvalue declaration here. A miss stays a miss. |
| Parser.ResolveLocal | src/compiler/parser.rs:671-704 | `resolve_local` never reports an UpLocal and never changes symbols. |
| Parser.FromEnclosing | src/compiler/parser.rs:683-699 | A hit in an enclosing scope becomes the next upvalue index of the current chunk. |
| Parser.ResolveFindsVisible | src/compiler/parser.rs:705-735 | `resolve` fails exactly when the name is not visible in that scope or an enclosing one. |
| Parser.ResolveCapturesLocal | src/compiler/parser.rs:705-709 | Resolving a local of an outer scope yields its slot and sets its captured flag. |
| Parser.ResolveLocalInnermost | src/compiler/parser.rs:671-682 | A current-scope local wins first, then an existing upvalue, both leaving the context unchanged. |
| Parser.FromEnclosingFindsVisible | src/compiler/parser.rs:683-699 | The enclosing-scope step succeeds exactly when the name is visible there. |
| Parser.ResolveLocalGlobals | src/compiler/parser.rs:700-703 | A name visible in no scope resolves to its global, or NotFound, and leaves the context unchanged. |
| Parser.ResolveLocalFindsVisible | src/compiler/parser.rs:671-699 | A name visible in some scope resolves to a local or an upvalue, never a global. |
| Parser.ResolveLocalCapturesEnclosing | src/compiler/parser.rs:683-690 | A local of the directly enclosing scope becomes a new `Ref` upvalue and has its captured flag set. |
| Parser.EmitGet | src/compiler/parser.rs:393-403 | Emitting a variable read fails exactly on NotFound and otherwise emits one instruction. |
| Parser.ParseRval | src/compiler/parser.rs:387-544 | A token that starts no operand yields success with nothing consumed. End of input is the EOF error. On a chain of `true`/`false` operands and binary operators, with enough fuel, it succeeds and emits exactly the postfix code `Climb` gives, ending where `Climb` does. |
| Parser.Operand | src/compiler/parser.rs:393-454 | `nil` emits `PushNil` without advancing. `true`/`false` emit their load and advance. |
| Parser.OperandThenInfix | src/compiler/parser.rs:387-544 | An operand followed by the infix loop. On a chain, with enough fuel, it succeeds and emits exactly `Climb`'s code, ending where `Climb` does. |
| Parser.InfixLoop | src/compiler/parser.rs:455-542 | The loop stops at end, `;` or a non-operator. It stops at an operator whose level is ≤ the current one, so equal levels associate left, and a tighter operator is consumed. On the rest of a chain it emits exactly the code `ClimbRest` gives. |
| Parser.InfixOperator | src/compiler/parser.rs:500-541 | An operator that binds takes a right operand at its own level, emits its instruction after it and continues the loop. On a chain that is exactly `ClimbRest`'s code. |
| Parser.Climb | src/compiler/parser.rs:387-544 | The reference for an operand and what binds to it ends after the operand and within the input. |
| Parser.ClimbRest | src/compiler/parser.rs:455-542 | The reference for the operators after an operand never moves back and stays within the input. |
| Parser.ClimbBounds | src/compiler/parser.rs:387-544 | On a chain, an operand and what binds to it end at a point where the chain may go on or stop. |
| Parser.ClimbRestBounds | src/compiler/parser.rs:455-542 | On a chain, the operators after an operand end at a point where the chain may go on or stop. |
| Parser.ClimbSameLevelAssociatesLeft | src/compiler/parser.rs:500-541 | `a op b op' c` with one level compiles to `a b op c op'`: the first operator is applied first. |
| Parser.ClimbTighterBindsFirst | src/compiler/parser.rs:500-541 | `a op b op' c` with `op'` tighter compiles to `a b c op' op`. |
| Parser.ClimbLooserWaits | src/compiler/parser.rs:500-541 | `a op b op' c` with `op'` looser compiles to `a b op c op'`. |
| Parser.ClimbExampleSub | src/compiler/parser.rs:500-541 | `true - false - true` gives `LoadTrue, LoadFalse, Sub, LoadTrue, Sub`. |
| Parser.ClimbExampleMul | src/compiler/parser.rs:500-541 | `true + false * true` gives `LoadTrue, LoadFalse, LoadTrue, Mul, Add`. |
| Parser.EmitBinary | src/compiler/parser.rs:500-541 | Each binary operator emits its instruction on the operator's line, and any other token emits nothing. |
| Parser.Suffix | src/compiler/parser.rs:478-489 | A `.name` suffix consumes exactly the dot and the name. |
| Parser.ParseArgument | src/compiler/parser.rs:178-196 | An empty argument list counts 0 and consumes nothing. Any other list counts at least one. |
| Parser.ArgLoop | src/compiler/parser.rs:178-196 | Each argument loop pass counts one more. |
| Parser.ParseArray | src/compiler/parser.rs:545-553 | As written, `array(` always fails where it expects the `(`. |
| Parser.ParseDict | src/compiler/parser.rs:554-584 | As written, `dict(` always fails where it expects the `(`. |
| Parser.DictKey | src/compiler/parser.rs:560-569 | A dictionary entry starts with a string key, loaded as a constant, or is a `)` that emits `InitDict` and advances. Anything else fails. |
| Parser.DictLoop | src/compiler/parser.rs:559-580 | Each dictionary loop pass counts one more pair. |
| Parser.Parse | src/compiler/parser.rs:98-147 | It stops only at end or `}`. As written, `{` never terminates, `;` fails, and success consumes nothing. |
| Parser.Statement | src/compiler/parser.rs:98-147 | A token that starts no statement is an unexpected-token error. As written, a successful statement stops at a `;` it never consumes. |
| Parser.ParseReturn | src/compiler/parser.rs:148-166 | As written, a `return` statement never parses. |
| Parser.ParseExcept | src/compiler/parser.rs:167-176 | As written, an `except` statement never parses. |
| Parser.ParseDecl | src/compiler/parser.rs:276-299 | As written, `var` is never followed by a symbol, so it fails as an invalid declaration. |
| Parser.ParamLoop | src/compiler/parser.rs:248-264 | Each parameter adds one local. |
| Parser.ParseFuncDecl | src/compiler/parser.rs:236-275 | As written, `function` fails as an invalid function declaration. |
| Parser.FunctionBody | src/compiler/parser.rs:246-268 | As written, a body that parses stops at its `(`. |
| Parser.StoreFunction | src/compiler/parser.rs:269-274 | A function's chunk gets its `Return` and arity and becomes the enclosing constant, stored with `Load; SetLocal(last); Pop`. It panics when the enclosing scope has no local. |
| Parser.BackJump | src/compiler/parser.rs:310-312 | Emitting the back jump keeps the context valid. |
| Parser.PatchJumpIfNot | src/compiler/parser.rs:314-315 | Patching a forward conditional keeps the context valid. |
| Parser.PatchJump | src/compiler/parser.rs:353-354 | Patching the else-skip jump keeps the context valid. |
| Parser.WhilePatchOffsets | src/compiler/parser.rs:300-316 | The back jump's offset is ≤ 0 and lands on the condition. The patched JumpIfNot lands just past the loop. Nothing else changes. |
| Parser.IfPatchOffsets | src/compiler/parser.rs:330-358 | The JumpIfNot lands just past the then-branch's `Jump`, and its patch alone leaves that `Jump` as it is. With an else branch it becomes a jump past the else code. |
| Parser.IfWithoutElsePatched | src/compiler/parser.rs:340-346 | Without an `else`, the corrected patch turns the last instruction's `Jump(0)` into `Jump(1)`, which lands just past it, on the code after the `if`. Nothing else changes. |
| Parser.ParseWhile | src/compiler/parser.rs:300-317 | As written, `while (` always fails where it expects the `(`. |
| Parser.ParseBlock | src/compiler/parser.rs:318-329 | As written, a `{` block recurses without end. |
| Parser.CallBlock | src/compiler/parser.rs:323-326 | A block becomes an anonymous chunk constant, called with `Load; Call(0)`. |
| Parser.ParseIf | src/compiler/parser.rs:330-358 | As written, `if (` always fails where it expects the `(`. |
| Parser.ParseProg | src/compiler/parser.rs:81-97 | A last token other than `;` or `}` is "incomplete program", and an empty program parses. As written, success consumes nothing. |
| Fib.FibRecurrence | tests/fib.py:13-17 | `fib(0) = fib(1) = 1`, and each later value is the sum of the two before it. |
| Fib.Seed | tests/fib.py:23 | The buffer has length 20 and is seeded `[1, 1, 0, …, 0]`. |
| Fib.Fib1 | tests/fib.py:22-29 | The buffer keeps length 20. Entries 2 ≤ k < n hold the sum of the two before, and later entries stay 0. n > 20 is an index error, and every n ≤ 19 returns 0. |
| Fib.FilledBufferIsFib | tests/fib.py:24-27 | Every filled entry k equals `fib(k)`. |
| Fib.Fib1ReturnsAt20 | tests/fib.py:29-31 | A fully filled buffer ends in 6765. |
| Fib.Fib1At20 | tests/fib.py:31 | `fib(19)` is 6765, the value `fib1(20)` returns. |

## Left out

- Floating point: numbers are exact reals. The results of Add/Sub/Mul/Div are not related to IEEE arithmetic, `Mod`'s `f64 as i64` does not saturate, and the scanner keeps number tokens as lexemes checked by a dot count instead of Rust's `f64` parser.
- Vm.NumberOp: the result is pinned down only for `Add`. The other operations state their guards, stack effect and pc advance.
- Vm.Step: its own contract covers only the missing-frame panic. The instruction cases are stated by the per-instruction functions it dispatches to.
- Vm.CallOp: a native function's effect on the stack is a parameter (`Native`), because the native table is foreign code.
- Vm.SetUpvalueOp: states the height and allocation facts. The written value is stated by `Vm.SetThenGetUpvalue`.
- Integer widths: `usize` and `i32` do not wrap. A `usize` underflow is a `Panic`, the debug-build behaviour. Jump offsets are unbounded integers, and pool reference counts do not overflow.
- Dangling pointers: reading through a freed address is a `Panic` (in `FindOpen`, a freed upvalue simply does not match).
- Vm.Run: the loop of `Vm::run` carries a `fuel` bound, because it need not end. A run that is still `Running` when the fuel is spent says nothing about what follows. `Vm.RunSettles` shows that a final outcome does not depend on the fuel.
- Vm.Init: in the source, the top frame's closure pointer points at the local `closure` of `Vm::new`, and that closure's chunk pointer at the local `prog`. Both locals are moved into the `Vm` when `new` returns, so every later fetch reads through dangling pointers, which is undefined behaviour. The model holds the top chunk by value in the frame and reads it from there.
- Parser.Parse: parsing carries a `fuel` bound. Running out stands for the unbounded recursion of a `{` statement, and inputs needing more nesting than the fuel are not covered.
- Parser.ParseArgument: states the argument count but not that a `)` follows, since the loop stops at any non-comma token.
- Parser.DictLoop: states the pair count but not the token it stops at.
- The `decl_symbol` parameter of `parse_rval_expr` is only passed along and never read, so it is dropped.
- Error messages are error kinds. Their formatted strings and row/column text are not modelled.
- The `nil` prefix bug and the non-advancing `consume` are kept, not fixed. `Consuming.Advancing` is a variant that advances. The other repairs modelled, each beside the as-written behaviour, are: the string loop step (`Scanner.StringStep`, used by `Scanner.StringBody`), the patched `Jump(1)` of an `if` without `else` (`Parser.ParseIf`), and the collector that traces `Error` dictionaries and open upvalues (`Gc.RunGcRepaired`).
- The version skew: the fiber and native libraries use a newer VM interface (`get_stack`, `set_fiber`, `Fiber`, `OpaqueData`, `is_va`). It is modelled separately in `Runtime` and not reconciled with `Vm`. `set_fiber` is assumed to make its argument the current fiber.
- `vec_u8_destroy` frees memory through `Box::from_raw`, which is pointer mechanics.
- Dictionary iteration order: a `HashMap` is an insertion-ordered entry list here. Nothing that depends on its order is stated.
- Debug printing in `Vm::run`, `run_string`/`run_string_debug`, the CLI, the drawing, math and printing natives, and the benchmark timing are I/O.
- tests/fib.py: `fib` on a negative argument never ends in Python. The model takes natural numbers.
- Scanner.Identifier: letters are ASCII letters only. Rust's `is_alphabetic` also accepts every other Unicode letter, and the model has no Unicode tables.
- Scanner.IdentTail: identifier characters are ASCII letters, digits and `_` only. Rust's `is_alphanumeric` also accepts other Unicode letters and numbers.
- Scanner.ScanStep: a non-ASCII letter that Rust would start an identifier with is the unsupported-character error here. Whitespace is the full Unicode set, as in Rust.
- Scanner.Scan: the ASCII restriction of identifiers applies to every step.
- Scanner.Tokenize: the ASCII restriction of identifiers applies to every step.
- Tokens.Token: `String` and `Symbol` tokens carry their text where the source holds an interned handle. The pool's side of the scan is stated by `Scanner.TokenizeWithPool`, which interns the texts in token order after a successful scan. A failed scan leaves the source's pool with the texts interned before the error; the model does not state that pool.
- Scanner.StringBody: runs the corrected step, so the model does not loop on a backslash at the end of the input as the source does. That as-written loop is stated by `Scanner.StringLoopStuckOnTrailingBackslash`.
- Parser.ParseIf: patches the `Jump(0)` of an `if` without `else`, which the source leaves in place. The as-written layout is stated by `Parser.IfPatchOffsets` and its effect by `Vm.JumpZeroStalls`.

## Findings

| source | as written | input that shows it | evidently intended | confidence | as-written member | corrected member |
|---|---|---|---|---|---|---|
| src/compiler/scanner.rs:344-363 | A backslash with nothing after it takes neither the escape branch nor the error branch, and the loop never advances. | the source text `"\` (a quote, then a backslash as the last character) | report end of input inside a string | not executed | Scanner.StringLoopStuckOnTrailingBackslash | Scanner.StringStepRepairsOnlyTrailingBackslash |
| src/lib.rs:97-139 | `mark_proc` ignores `Value::Error`, and `run_gc` marks only what it traces, so the dictionary behind a caught error is freed while still on the stack. | a stack holding `Error(d)` when the heap has at least 128 objects | trace the Error dictionary like a Dictionary | not executed | Gc.RunGcFreesErrorDictionary, Vm.InitArrayFreesErrorDictionary | Gc.RunGcRepairedNoDangling |
| src/vm.rs:778-823 | The open-upvalue list is not a root, so an upvalue object reachable only from it is freed and the list then dangles. | a heap of at least 128 objects where an upvalue is on the open list but no closure on the stack holds it | keep every open upvalue alive | not executed | Gc.RunGcFreesOpenUpvalue | Gc.RunGcRepairedNoDangling |
| src/compiler/parser.rs:340-346 | Without an `else`, the `Jump(0)` placeholder after the then-branch is never patched, and `Jump(x)` at src/vm.rs:451-455 adds x to the pc, so `Jump(0)` jumps to itself. | the chunk of `if (true) { }` as compiled with `consume` advancing, ending in `Jump(0)`, run by the VM | `Jump(0)` as a no-op, as the comment says: move on to the code after the `if` | not executed | Parser.IfPatchOffsets, Vm.JumpZeroStalls | Parser.IfWithoutElsePatched, Vm.JumpOneFallsThrough |
