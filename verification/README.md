# Verification of lambpie

This project models the parts of lambpie in which a mistake would be hard to see, and proves what they promise: the
lowering of `.pie` function bodies to basic blocks, the incremental HTTP response parser and the event loop on top
of it, the JSON reader and writer with the generated (de)serialisers, the closure of service models, and the life of
a process over its two arenas. `dafny verify dfyconfig.toml` checks everything.

## What is modelled

**Lowering** (`MachineInt`, `PieSource`, `BlockIr`, `Lowering`, `FunctionCompiler`, `LoweringForm`, `LoweringShape`,
`LoweringExact`, `NameSafety`, `Dominance`, `LoweringDominance`, `LoweringWitness`, `LoweringMeaning`,
`StatementMeaning`, `FunctionMeaning`, `RunSafety`, `LoweringRefusal`). The source side is a structured language
with a big-step semantics: 64-bit ints, local variables, fixed-size arrays, `if`, `while`, `return`. The target side
is a machine that runs blocks step by step; executing an `alloca` hands out a fresh object. The visitor is a class
that updates blocks, position, scope and temporary counter in place, proved to do what the `Lowering` functions say;
the theorems are about those. Meaning is preserved in both directions, for every outcome: value returned, end of the
body, undefined behaviour, divergence.

The theorems on meaning hold for functions that satisfy `CheckFunction`: names are declared before use and not
redeclared while visible, a name is used only in the list that declares it, conditions are comparisons, and nothing
that compiles to code follows a `return` in its list. The visitor accepts more. For every function it accepts, the
form of the blocks and the definition of temporaries have their exact conditions: no code behind a `return`
(`WellFormedIff`), and every name safe where it is used (`DominanceIff`), where `NameSafety` follows the compiler's
own scope, in which a name stands for the declaration visited last. Runs of such code never get stuck
(`NeverInvalid`). Which functions it refuses, and with which error, is read off the source (`RefusedIff`).

**HTTP** (`HttpText`, `HttpParser`, `HttpLimits`, `HttpLines`, `HttpReceive`, `HttpReference`, `Mapping`,
`Protocol`). The receive loop fills an array in place and is proved to follow a transition function on parser
states; the network is any sequence of `recv` sizes and interruptions. When chunking is irrelevant, and when the
buffer bound holds, is settled for every stream, every capacity and all stale contents of the buffer. The event loop
reuses the buffer for every answer; over whole runs each POST still names the invocation of its own poll. What ends
the runtime in front of the body, the clean shutdown above all, is read off the lines of the stream.

**JSON** (`Decimal`, `JsonReader`, `JsonObject`, `JsonReading`, `JsonSyntax`, `JsonGrammar`, `JsonParsing`,
`JsonWriter`, `Codec`, `CodecRoundTrip`, `EventSyntax`). The reader's sliding-window search is characterised on
every text, and against the members of every flat object. It knows no escapes: against a reference parser of RFC
8259 that does, it is right about a key's string exactly if no earlier string value looks like the key and the
string itself has no escapes. The writer's buffer updates, its decimal conversion and the generated entry point are
proved exact, and so is the condition under which a record can be read back.

**Service models** (`ShapeGraph`, `Ordering`, `ModelParser`, `PieGenerator`). The depth-first walk with its shared
visited set returns exactly the reachable shapes, on cyclic graphs too. The parsed model is closed, with one
exception that the contract of `Parse` states exactly. The generated classes compile exactly if class types only
refer backwards in the alphabet. What walk, parser and generator produce is stated from the model's shapes alone as
well (`CollectReachable`, `Parse`, `GeneratedSays`).

**Arenas and processes** (`Arena`, `Isolation`, `Exchange`, `Shim`). Compiled code is any function from what it has
seen to its next command: construct an object in one of the arenas, load a word, or finish. Memory keeps the bytes
of earlier requests. What a handler answers is stated on the exchange itself, a sequence of commands and replies.
The process of `Shim` runs start-up, freeze and event loop over both arenas and over the HTTP runtime; every event
is answered as by a fresh process, under its own id.

`Wrappers` holds the option and result types.

## Where code and expectation differ

- `%` and `>>` are not Python's for operands of different sign and for negative values, and undefined for
  INT64_MIN % -1 and shifts by 64 or more (`ModMatchesPythonIff`, `ShiftMatchesPythonIff`).
- In body mode `recv` is given the missing body bytes and not the free capacity: a response whose declared end is
  behind the capacity can be received past it, up to the guard page (`CapacityIff`). Whether it completes or is
  refused depends on how it is cut; one that fills the buffer exactly ends without a body if it comes in one
  piece (`FramedChunkingIff`).
- `json.h` promises NULL or an exit if the key is not found; a string value that equals the key, or ends with an
  escaped quote and the key, is found in its place, and the real key behind it is then not read (`ReadObject`,
  `MistakenFieldFails`, `EscapedQuoteMistaken`).
- Strings with escapes are not read as they are meant: up to their first quote, escapes as they stand
  (`StringReaderMatchesParserIff`).
- INT64_MIN is written correctly but cannot be read back (`FieldRoundTripIff`).
- The result of parsing a response depends on how it is cut if the peer sends more than it declared
  (`ChunkingIrrelevantIff`), and on what the buffer held before if its last Content-Length line carries no number,
  as `atoi` reads on behind the line (`StrayDecides`, `StrayLength`).
- Strings are written as they are: a response with a quote, a backslash or a control character in a string is not
  the JSON text of that response (`EncodeParsesIff`).
- An answer with the shutdown status that is as long as the capacity is not seen as one if it comes in one piece:
  the loop ends, the capacity used up, before the status line is scanned (`ShutdownIff`, `GoneFirstLine`).
- `parse` with an empty list of operation names lists all operations but emits no shapes (`NothingSelected`).
- Generated modules with forward or recursive class references do not compile (`GeneratedCompilesIff`).
- Names leak out of branches, and of the code behind a `return` only branches and returns are rejected; when the
  emitted blocks are nevertheless well-formed, and their uses defined, is stated exactly (`WellFormedIff`,
  `DominanceIff`, `LeakedName`).
- A header line is taken for a recognised one if its text up to the last colon is any prefix of the name, and a
  recognised header with a colon in its value is missed (`RecognitionIff`).
- Request ids that do not fit into the 256-byte path are cut off (`PathCarriesIdIff`).
- The repository's README still shows a handler class; the entry point modelled here is the top-level `handle`
  function that the compiler looks for (compiler.py:763-770).

## Model

| member | source | states |
|---|---|---|
| `MachineInt.BinaryAgrees` | compiler.py:462-486 | each accepted binary operator, as lowered, computes on 64-bit patterns the wrapped signed value the source operator has, and is undefined exactly when it is (shift by 64 or more, remainder by zero, INT64_MIN % -1) |
| `MachineInt.BitwiseIsExact` | compiler.py:472-477 | Python's unbounded bitwise and, or and xor never leave int64 on int64 operands, and agree with the bitwise operations on patterns |
| `MachineInt.InvertAgrees` | compiler.py:488-494 | `~x`, lowered to xor with all ones, is -1 - x on every int64 |
| `MachineInt.CompareAgrees` | compiler.py:503-524 | each accepted comparison, lowered to a signed predicate on patterns, is the comparison of the signed values |
| `MachineInt.ModMatchesPythonIff` | compiler.py:483-484 | the compiled remainder gives Python's `%` exactly if the operands are not INT64_MIN and -1, where it is undefined, and either the divisor divides or the signs are equal |
| `MachineInt.ShiftMatchesPythonIff` | compiler.py:480-482 | for every non-negative shift amount, the compiled right shift gives Python's exactly if the amount is below 64 and the value is not negative or the amount is zero |
| `MachineInt.ExactIff` | compiler.py:462-481 | +, -, * and << are compiled, to operations that give Python's unbounded value modulo 2^64 if and only if the shift is below 64, and so the value itself if and only if it is an int64, too |
| `FunctionCompiler.Compiler.SetTerminator` | compiler.py:411-416 | ends the current block, or raises if it has ended already |
| `FunctionCompiler.Compiler.BranchUnlessTerminated` | compiler.py:551-552 | branches exactly if the current block has no terminator yet |
| `FunctionCompiler.Compiler.VisitExpr` | compiler.py:447-501 | appends exactly the specified code for an expression, at the current position, and returns its operand; an array name appends nothing and yields its address; or raises the specified error |
| `FunctionCompiler.Compiler.SubscriptPtr` | compiler.py:691-704 | the same for the address of an array element |
| `FunctionCompiler.Compiler.VisitCompare` | compiler.py:503-524 | the same for a condition |
| `FunctionCompiler.Compiler.VisitTest` | compiler.py:526-548 | appends the blocks of an `if` or a `while`, branches into the test and out of it, and moves to the first branch |
| `FunctionCompiler.Compiler.VisitIf` | compiler.py:526-561 | leaves the generator as the specification says: test, branches, the joins that are needed, position at the merge block |
| `FunctionCompiler.Compiler.VisitWhile` | compiler.py:563-582 | the same for a loop: header, body, back edge, position at the exit block |
| `FunctionCompiler.Compiler.VisitStmt` | compiler.py:666-727 | the same for every statement, errors included |
| `FunctionCompiler.Compiler.VisitBody` | compiler.py:399-400 | the loop over a statement list is the specified fold |
| `FunctionCompiler.Compiler.VisitFunctionDef` | compiler.py:379-406 | parameters spilled, body compiled, a body that falls off its end closed by `unreachable` or `ret void`: the blocks of the specification |
| `LoweringForm.StmtForm` | compiler.py:526-582 | for every statement that compiles, scoped or not, with nothing but silent statements behind returns: no block changes but the current one and new ones, all of these but the one it ends in are complete, branches lead to existing blocks |
| `LoweringForm.StmtScope` | compiler.py:672-677 | for every statement that compiles, the compiler's scope changes as the declarations visited say, whatever branch they are in: declared names get new slots, all others keep theirs |
| `LoweringShape.StmtShape` | compiler.py:526-582 | visiting a well-scoped statement at an open block succeeds, changes no block but the current one and new ones, completes every new block except the one it ends in, branches only to existing blocks, and keeps all visible names bound to their slots |
| `LoweringShape.ListShape` | compiler.py:549-559 | the same for a statement list; it ends in a complete block exactly if the list holds a return |
| `LoweringShape.FunctionShape` | compiler.py:379-406 | compiling a well-scoped function never raises; every block has exactly one terminator, in last place, and all branch targets exist |
| `LoweringExact.WellFormedIff` | compiler.py:399-416 | a function that the visitor compiles gets blocks with exactly one terminator each, in last place, if and only if nothing that compiles to code stands behind a return |
| `LoweringExact.StmtExtends` | compiler.py:526-727 | whatever the statement, existing code is only ever extended |
| `LoweringRefusal.RefusedIff` | compiler.py:379-727 | for every function, scoped or not: the compiler raises an error if and only if that is the first thing wrong with the source in the order of the visit (a name never declared so far, an operator without code, a constant outside int64, an array declared with a value, an array for an int or an int for an array, a branch or return behind a return), and compiles it if and only if nothing is |
| `LoweringRefusal.AcceptedLists` | compiler.py:679-684 | in a function that is compiled, at any depth, no array is declared with a value, and no `if`, `while` or second `return` stands behind a `return` in its list |
| `LoweringWitness.DominanceIff` | compiler.py:447-454 | for a function compiled to complete blocks: every temporary is defined before it is used on every path through the graph, across branches, joins and back edges, if and only if every name of the source is safe where it is used, that is, the declaration the compiler visited last is executed on every path there |
| `LoweringWitness.StmtWitness` | compiler.py:526-582 | the half of it for code that is accepted: if no path reaches an undefined temporary, the names of each reachable statement are safe, and whatever is not safe behind it can be avoided on some path |
| `LoweringDominance.SafeDefined` | compiler.py:672-677 | the half for code that is safe: leaking and redeclared names included, all uses are defined on all paths |
| `LoweringDominance.DefinitionsDominateUses` | compiler.py:382-400 | well-scoped functions have this property; so the alloca of a variable is on every path to each of its loads and stores |
| `Dominance.CertifiedPath` | compiler.py:563-582 | what is certified to be defined on entry to a block is defined on every path to it |
| `LoweringMeaning.ExprSim` | compiler.py:447-501 | running the code of an expression yields the value of the expression and changes no memory, or reaches undefined behaviour exactly if the expression has no value |
| `LoweringMeaning.CondSim` | compiler.py:503-524 | the same for a condition |
| `StatementMeaning.IfSim` | compiler.py:526-561 | running the blocks of an `if` simulates the statement |
| `StatementMeaning.LoopSim` | compiler.py:563-582 | running from the loop header simulates the loop from any iteration on |
| `StatementMeaning.StmtSim` | compiler.py:666-727 | running the code of a statement ends with the store of the source, with its returned value, in undefined behaviour, or has made at least as many steps as the fuel that ran out |
| `FunctionMeaning.MeaningPreserved` | compiler.py:352-416 | for every well-scoped function, arguments and fuel: the blocks, run from entry, stop with what the source gives, or are still running after at least that many steps if the source is still looping |
| `FunctionMeaning.CodeStopsAsSource` | compiler.py:352-416 | the blocks return v, reach the final `unreachable` or `ret void`, or undefined behaviour, if and only if the source returns v, falls off its end, or is undefined |
| `FunctionMeaning.CodeDivergesAsSource` | compiler.py:563-582 | the blocks run forever if and only if the source loops forever |
| `RunSafety.NeverInvalid` | compiler.py:447-454 | for every function that compiles to complete blocks and whose names are safe, leaked and redeclared names included: no run uses an undefined temporary, confuses pointers and words, or leaves its blocks |
| `RunSafety.FunctionKinded` | compiler.py:352-416 | whatever function is compiled, its temporaries have kinds (word, truth value, pointer) that every instruction respects |
| `RunSafety.WellScopedNeverInvalid` | compiler.py:447-454 | in particular no run of a well-scoped function does |
| `FunctionMeaning.LeakedName` | compiler.py:672-677 | an instance where the condition fails: a name used behind the branch that declares it is not safe, yet it compiles, and the code reads a slot that was never allocated |
| `HttpText.LineBreakLocal` | runtime/src/runtime.c:206-255 | what a line break does depends neither on how much has been received behind it nor on stale bytes, given that a Content-Length line carries its number; in particular the test for 12 received bytes never matters |
| `HttpText.LineBreakAlike` | runtime/src/runtime.c:206-255 | stale bytes, the number of bytes received and the length found so far matter to a line break only for the number of a Content-Length line that carries none, and for whether a blank line finds a length |
| `HttpText.GoneLocal` | runtime/src/runtime.c:228-229 | the comparison with the shutdown status is settled by the line itself |
| `HttpText.AtoiIs` | runtime/src/runtime.c:243 | the length read is what white space, a sign or none and digits denote, up to whatever goes on with none of them |
| `HttpLines.ScanStops` | runtime/src/runtime.c:202-258 | the scan of a stream stops at the first line feed with less than three bytes in front of it, without a carriage return, behind an empty line, or behind a line that begins with `HTTP/1.0 410` and has no colon; with the refusal or the shutdown that this is |
| `HttpLines.VerdictIff` | runtime/src/runtime.c:206-238 | for every stream, capacity and buffer size: some way of cutting the stream is refused for an early or a bare line feed, or shuts down, if and only if this is the first such line feed, within the capacity; and all ways are, if and only if the stream is also shorter than the capacity, or begins with the line feed |
| `HttpLines.ShutdownIff` | runtime/src/runtime.c:225-238 | the same for the shutdown alone: nothing but the status line of a container that is shut down, in front of the blank line, ends the runtime cleanly |
| `HttpLines.GoneFirstLine` | runtime/src/runtime.c:225-238 | a first line that begins with `HTTP/1.0 410`, has no colon and ends properly shuts the runtime down, whatever follows it: in all ways of cutting if and only if the stream is shorter than the capacity, in some way if and only if the line is |
| `HttpReceive.RecvRetry` | runtime/src/runtime.c:182-188 | repeats interrupted calls; the bytes of the first call that is not interrupted are in the buffer, and nothing else changed |
| `HttpReceive.OnLineBreak` | runtime/src/runtime.c:206-255 | all outcomes of a line break, the shutdown included, with the headers it recognises |
| `HttpReceive.OnByte` | runtime/src/runtime.c:202-257 | one byte of header mode, with the switch to body mode |
| `HttpReceive.Http` | runtime/src/runtime.c:164-264 | the loop over a buffer filled in place ends as the specified run does, with the bytes of that run in the buffer, the body in the declared place and a NUL behind what was received, always inside the array; it terminates; it shuts down only if a colon-free line that begins with `HTTP/1.0 410` is the first to end the scan, and then always, unless the capacity is used up |
| `HttpParser.TurnKeeps` | runtime/src/runtime.c:175-258 | every turn keeps: parse point within what was received, `remain` the free capacity before the blank line and the missing body bytes after it, the request id inside the received bytes; no received byte is overwritten and none behind them is written; and what was received stays within the capacity unless the body is to end behind it |
| `HttpParser.RunKeeps` | runtime/src/runtime.c:175-263 | a run that completes has received exactly the declared body behind the blank line; one that ends without a blank line has filled the capacity |
| `HttpParser.ByteOnCourse` | runtime/src/runtime.c:202-258 | one byte of header mode follows the scan of the whole stream, whatever the buffer holds behind what was received: same lines and request id, and the same length unless that of a Content-Length line without number; a stop has the outcome of the stream, unless it is a blank line behind such a length |
| `HttpParser.ChunkingIrrelevant` | runtime/src/runtime.c:164-263 | for a stream shorter than the capacity that determines its outcome (behind a blank line: its length is a number in the stream, or there is none, and it is not exceeded): in whatever sizes it arrives and whatever the buffer held before, the outcome is that of a one-shot scan of the whole stream, and on completion the buffer holds the stream |
| `HttpLimits.CapacityIff` | runtime/src/runtime.c:175-188 | for every stream, capacity and buffer: in all runs, whatever the buffer held before, on every turn, what was received is within the capacity if and only if the stream does not run over (a blank line in front of the capacity, more bytes than the capacity, and a length that is not in the stream or ends the response elsewhere than at the capacity or one byte before); for a response as long as declared: if and only if its declared end is within the capacity |
| `HttpLimits.ChunkingIrrelevantIff` | runtime/src/runtime.c:164-264 | for every stream, capacity and buffer size: all ways of cutting the stream and all old contents of the buffer give one outcome if and only if the stream is shorter than the capacity and determines its outcome, or nothing but field lines (or a first line feed) comes within the capacity |
| `HttpLimits.FramedChunkingIff` | runtime/src/runtime.c:175-188 | for a response whose body begins within the capacity and is all there: exactly if its length is in the stream, it ends as declared and is shorter than the capacity |
| `HttpLimits.StrayDecides` | runtime/src/runtime.c:240-243 | a blank line behind a Content-Length line that carries no number: cut behind that line, what the buffer held before is taken as the length, and decides between refusal, completion and a closed connection |
| `HttpLimits.StrayLength` | runtime/src/runtime.c:243 | an instance: one stream and one cut with three outcomes |
| `HttpReference.RecognitionIff` | runtime/src/runtime.c:240-252 | on any line, bounded comparison up to the last colon agrees with the field name at the first colon if and only if the text up to the last colon is not a proper prefix of the recognised name, and does not go on behind the name and its colon with anything but a NUL |
| `HttpReference.RecognitionAgrees` | runtime/src/runtime.c:240-252 | on a plain line the two agree, and the text up to the last colon is the name |
| `HttpReference.HeadersAsFieldLines` | runtime/src/runtime.c:202-264 | for a header section of plain lines, in any chunks: body, length and request id are those of a parser that splits lines at CRLF and fields at the first colon (section 5 of RFC 9112) with Content-Length framing (section 6.2); without the field it gives up at the blank line |
| `HttpReference.HeadersRead` | runtime/src/runtime.c:202-257 | the scan of such a header section, for any body |
| `Protocol.Outgoing.SendAll` | runtime/src/runtime.c:89-99 | delivers every byte, in order, whatever the single calls take |
| `Protocol.Runtime.SendRequest` | runtime/src/runtime.c:151-162 | the peer receives the head and then the content |
| `Protocol.Runtime.HttpCall` | runtime/src/runtime.c:141-265 | one request over a fresh connection: the peer receives it, and the answer is parsed into the shared buffer; id and body of the previous answer are dropped |
| `Protocol.Runtime.GetNextRequest` | runtime/src/runtime.c:447-463 | a poll; afterwards the id in the buffer and the body are those of its answer; the exact condition for stopping, which the code does without an answer or an id; with an id but no blank line within the capacity the code goes on with a null body, and the loop here stops as NullBody; the clean shutdown exactly if the answer, shorter than the capacity, has its status line |
| `Protocol.Runtime.SendResponse` | runtime/src/runtime.c:470-490 | a POST to the invocation whose id was in the buffer at the call, although the call overwrites it |
| `Protocol.Runtime.SendErrorResponse` | runtime/src/runtime.c:330-357 | the same for the error endpoint |
| `Protocol.Runtime.StartLambda` | runtime/src/runtime.c:492-518 | over whole runs: polls and POSTs alternate, and the i-th POST names the i-th poll's invocation and carries the handler's i-th result, on `/error` exactly for a negative length; up to the first exchange that goes wrong, and exactly so if none does; read off the log itself for a run where none does: request 2i is the GET of `/2018-06-01/runtime/invocation/next`; request 2i + 1 begins with `POST /2018-06-01/runtime/invocation/`, the i-th id and `/error HTTP/1.1` if and only if the handler has no i-th result, with `/response HTTP/1.1` in its place if and only if it has one, and then ends with the bytes of that result (for ids that fit into the path with `/error` or `/response`) |
| `Protocol.ExpectedSays` | runtime/src/runtime.c:502-516 | the argument behind this, for any playable sequence of exchanges |
| `Protocol.ShutdownStops` | runtime/src/runtime.c:225-238 | the runtime stops at the shutdown only for an answer with that status line, and for all of these below the capacity |
| `Protocol.RequestFramedIff` | runtime/src/runtime.c:151-162 | the request sent is a message of four header lines and its content, framed by its own Content-Length field, if and only if the head fits into its buffer |
| `Protocol.PathCarriesIdIff` | runtime/src/runtime.c:472-475 | the 256-byte path names the invocation in full if and only if the id has no NUL and fits |
| `Protocol.PollSaysFields` | runtime/src/runtime.c:447-463 | for an answer made of plain field lines, id and body are those of the reference parser |
| `JsonReader.FindKeyLoop` | runtime/src/json.c:24-41 | the least index where the quoted key stands, the length exactly if there is none |
| `JsonReader.SkipWsLoop` | runtime/src/json.c:13-20 | skips exactly the white space at a position |
| `JsonReader.JsonGetStr` | runtime/src/json.c:47-85 | the value span that the search leads to, or none |
| `JsonReader.JsonGetInt` | runtime/src/json.c:91-140 | the int that the search leads to, each way to exit, or that the accumulator left int64 |
| `JsonSyntax.IntReadIff` | runtime/src/json.c:91-140 | for every text and key: the int reader returns n if and only if behind the first quoted key, white space, a colon and white space stand an optional minus and at least one digit, up to a byte that is none, and they denote n with a magnitude below 2^63; the accumulator leaves int64 if and only if the magnitude is larger; the key is reported missing if and only if it is nowhere in quotes |
| `JsonSyntax.StrReadIff` | runtime/src/json.c:47-85 | for every text and key: the string reader returns a span if and only if behind the first quoted key, white space, a colon and white space this text stands between a quote and the next one |
| `JsonObject.ObjectSearch` | runtime/src/json.c:24-41 | in any flat object, with any white space, the search ends at the first member that has the key as its key, or as its string value, or behind an escaped quote at the end of its string value |
| `JsonReading.ReadObject` | runtime/src/json.c:47-140 | what both readers return for every identifier key of every flat object, white space and the int form as in RFC 8259 (sections 2, 4 and 6), strings of any characters with a backslash in front of each quote; a string is read up to its first quote |
| `JsonReading.StringReaderIff` | runtime/src/json.c:47-85 | the string reader gives the string as it stands if and only if no earlier string value looks like the key and there is no quote in it, or the key has no string |
| `JsonReading.IntReaderIff` | runtime/src/json.c:91-140 | the int reader gives the number if and only if no earlier string value looks like the key and the magnitude is below 2^63 |
| `JsonGrammar.ItselfIff` | runtime/src/json.c:75-79 | the reference parser of strings (section 7 of RFC 8259, escapes included) gives what stands between the quotes if and only if that consists of unescaped characters |
| `JsonParsing.ObjectParsesIff` | runtime/src/json.c:24-85 | the reference parser of objects (sections 2, 4, 6 and 7 of RFC 8259) gives the members of a flat object with their escapes decoded, and as they stand there if and only if all strings consist of unescaped characters |
| `JsonParsing.StringReaderMatchesParserIff` | runtime/src/json.c:47-85 | on the text of every flat object of RFC 8259, escapes included, the string reader gives the string that this parser assigns to the key, and nothing else, if and only if the key has no string, or no earlier string value looks like the key and nothing in the string is escaped |
| `JsonParsing.IntReaderMatchesParserIff` | runtime/src/json.c:91-140 | on every such text, the int reader gives the number that the parser assigns to the key, and is an error otherwise, if and only if the key has no number, or no earlier string value looks like the key and the magnitude is below 2^63 |
| `JsonParsing.EscapedQuoteMistaken` | runtime/src/json.c:32-39 | an instance: the key behind an escaped quote in an earlier string hides the key itself |
| `Decimal.DigitsUnique` | runtime/src/json.c:200-237 | canonical notation is the only digit string of a number without leading zero |
| `JsonWriter.DivideLoop` | runtime/src/json.c:213-219 | the divide loop leaves the canonical digits in reverse, at most 19 of the 20 bytes |
| `JsonWriter.ReverseLoop` | runtime/src/json.c:221-223 | copies the scratch digits in reverse, and changes nothing else |
| `JsonWriter.WordDigits` | runtime/src/json.c:213-215 | no magnitude up to 2^63 has more than 19 digits |
| `JsonWriter.JsonOpen` | runtime/src/json.c:146-149 | writes the brace, and nothing else |
| `JsonWriter.JsonClose` | runtime/src/json.c:244-247 | writes the brace, and nothing else |
| `JsonWriter.JsonWriteStr` | runtime/src/json.c:155-179 | writes a comma unless the position is that of the first field, then the field; nothing else changes; the position moves by exactly its length |
| `JsonWriter.JsonWriteInt` | runtime/src/json.c:184-238 | the same with the canonical decimal notation of any int64, the minimum included |
| `Codec.WriteRecord` | compiler.py:943-996 | the emitted calls write exactly the encoding of the record, stay in the buffer if it fits, and return its length |
| `Codec.ReadRecord` | compiler.py:874-937 | the emitted calls read every field by its name, in layout order; a string not found is left unset, and an int not found makes the reader exit |
| `EventSyntax.EventRead` | compiler.py:874-937 | for every text: each field of the event is what stands behind its name (a quoted text, or unset exactly if there is none; a number of 64 bits), or the first int field that has no such number is the error |
| `Codec.LambpieHandle` | compiler.py:842-996 | the entry point turns the text of an event, unset strings included, into the encoding of the response to it, and returns its exact length |
| `Codec.EncodeStep` | runtime/src/json.c:158-161 | the test on the position puts commas exactly between fields |
| `CodecRoundTrip.EncodeParsesIff` | compiler.py:943-996 | a serialised record is a JSON object with the values written, by the reference parser of sections 4, 6 and 7 of RFC 8259, if and only if all its strings consist of unescaped characters |
| `CodecRoundTrip.EncodeExactLength` | compiler.py:943-996 | the length: 2, one for each comma, and for each field its name, three marks and its value |
| `CodecRoundTrip.FieldRoundTripIff` | compiler.py:874-996 | for a record whose strings have a backslash in front of each quote: a field is read back, in any order, if and only if it has no quote and is not INT64_MIN, and no string written before it is its name or ends with an escaped quote and its name |
| `CodecRoundTrip.RoundTripIff` | compiler.py:874-996 | deserialising a serialised record gives it back if and only if no string has a quote or equals the name of a later field, and no int is INT64_MIN |
| `CodecRoundTrip.MistakenFieldFails` | runtime/src/json.c:32-39 | a value that equals a later key leaves that field unset if it is a string, and makes the reader exit if it is an int |
| `CodecRoundTrip.DecodeEvent` | compiler.py:874-937 | any encoding of an event, with white space, members in any order and further members, is read as the event |
| `CodecRoundTrip.HandleComposes` | compiler.py:842-996 | from one generated program to the next: the event is understood, and the response can be read with the response layout |
| `ShapeGraph.Walker.Walk` | scripts/parse_models.py:140-159 | visits a shape: all new shapes are reachable from it and refer only to visited ones; an error names an undefined reachable shape; the recursion is bounded by the unvisited shapes |
| `ShapeGraph.Walker.WalkAll` | scripts/parse_models.py:151-158 | the same for a list of shapes |
| `ShapeGraph.CollectReachable` | scripts/parse_models.py:115-169 | on cyclic graphs too: the least set of shapes with the input, the output and every error of each selected operation, the shape of every member of a structure in it, the element of every list in it, and key and value of every map in it; raises for a shape that is in all such sets and not defined; and for unknown operations exactly if some name given is that of no operation, with exactly those names |
| `ShapeGraph.ReachableIsLeast` | scripts/parse_models.py:138-169 | these form the least set that contains the operations' shapes and is closed under references |
| `ModelParser.Parser.ParseStructureShape` | scripts/parse_models.py:372-408 | the members kept, their types, and the required members among them, as specified; or the first error |
| `ModelParser.Parser.ParseShapes` | scripts/parse_models.py:337-370 | the entry of every shape given, or the error of one of them |
| `ModelParser.Parser.ParseOperations` | scripts/parse_models.py:318-335 | the operations listed, by name; an empty list of names lists all |
| `ModelParser.Parser.Parse` | scripts/parse_models.py:284-297 | success and failure in full; on success member types and required members are closed, and the operations listed find their structures if and only if the list of names was not empty or no operation has one; and from the model alone: every structure collected is a class whose members are exactly those whose shape is a structure or a scalar of the six types, with its name, `str` or `int` as their type, and required exactly if the structure requires them; every known scalar is its primitive; lists, maps and other scalars are left out or refused as asked for, and other scalars always refused in a member |
| `ModelParser.ShapesSay` | scripts/parse_models.py:337-408 | the argument behind this, for any output with the entries specified |
| `ModelParser.Closure` | scripts/parse_models.py:318-408 | the closure argument behind it |
| `ModelParser.NothingSelected` | scripts/parse_models.py:321 | with an empty list nothing is reachable, yet every operation is listed |
| `Ordering.SortNames` | scripts/parse_models.py:344 | the sorted enumeration of a set of names |
| `Ordering.SortingUnique` | scripts/parse_models.py:481-488 | there is only one |
| `Ordering.BeforeIff` | scripts/parse_models.py:481-488 | the order of names: the first difference decides, and a proper prefix comes first |
| `PieGenerator.FieldList` | scripts/parse_models.py:480-492 | the fields in their order |
| `PieGenerator.FieldsInOrder` | scripts/parse_models.py:480-492 | in this order required fields come first, and each group is alphabetical; the fields are exactly the members, with their types |
| `PieGenerator.GeneratePie` | scripts/parse_models.py:461-534 | one class per class entry in alphabetical order, one stub per operation, with their fields, parameters and results |
| `PieGenerator.StubFollowsClass` | scripts/parse_models.py:508-517 | a stub lists the fields of its input class in the order of the emitted class |
| `PieGenerator.GeneratedSays` | scripts/parse_models.py:461-534 | from the model to the module: for the shapes its operations need, a class for each structure, in alphabetical order, with the typed members as fields; and for each operation a stub with the endpoint and the fields of the input structure, or a request of the input's primitive type (a string if it has none), that returns the output structure or its primitive type, and `int` if there is none |
| `PieGenerator.GeneratedCompilesIff` | scripts/parse_models.py:461-492 | the compiler, which registers a class after its fields (compiler.py:203-223), accepts the generated classes if and only if every class-typed member names a class that is alphabetically earlier |
| `Arena.RoundUpIs` | runtime/src/arena.c:26 | the bit trick gives the least multiple of 8 that is not below the size |
| `Mapping.GuardBehindTerminator` | runtime/src/runtime.c:271-286 | for any power-of-two page size the guard page starts on a page boundary, behind byte number `size`, so the final NUL is inside |
| `Arena.ArenaCell.ArenaAlloc` | runtime/src/arena.c:25-35 | hands out the cursor and moves it by the rounded size, or is exhausted and changes nothing |
| `Arena.BlocksIff` | runtime/src/arena.c:25-35 | for all sizes: an allocation succeeds if and only if it and those before it, each in whole words, fit; its block is right behind theirs |
| `Arena.AfterIff` | runtime/src/arena.c:25-35 | the arena is exhausted by a sequence of allocations if and only if they do not all fit, and otherwise its cursor has moved by what they take |
| `Arena.ArenaCell.ArenaReset` | runtime/src/arena.c:37-39 | the cursor is back at the base |
| `Arena.BlocksSafe` | runtime/src/arena.c:25-35 | the blocks of any sequence of allocations are aligned, inside the arena and pairwise disjoint |
| `Isolation.ConstructWrites` | compiler.py:324-346 | a generated constructor writes every word of its object and no other |
| `Isolation.StepsSound` | runtime/src/arena.c:25-70 | in every state of an invocation, and of the top-level statements, the objects of both arenas are aligned, disjoint and inside their arena, and all their words have been written |
| `Isolation.OffsetsFromSizes` | runtime/src/arena.c:25-39 | the places handed out in an invocation are those of a single run of allocations of the same sizes |
| `Isolation.StaticsFrozen` | runtime/src/arena.c:41-62 | no step of an invocation changes the contents of the frozen arena |
| `Isolation.StepsAlike` | runtime/src/arena.c:25-39 | two runs that agree on the event, the cursors and the static contents stay indistinguishable to the code: same addresses, same words read, same outcome |
| `Isolation.AtEveryPoll` | runtime/shim/src/main.rs:35-48 | at every poll of a session the request arena is empty, and the static arena is as it was frozen |
| `Isolation.SameEventSameResponse` | runtime/shim/src/main.rs:35-48 | whatever was served before, the same event gets the same response, although a reset does not clear memory |
| `Exchange.RespondsIff` | runtime/shim/src/main.rs:35-44 | a process gives the response t within its budget if and only if the handler's exchange with memory ends in t: each of its commands is the handler's on the replies so far; the reply to an object is the address of its block, behind those handed out before, and to a load the word that a construction has last written there, or what was there before; the last command finishes with t |
| `Shim.Process.constructor` | runtime/shim/src/main.rs:26-27 | both arenas, empty and apart |
| `Shim.Process.ArenaAlloc` | runtime/src/arena.c:64-70 | allocates from the arena of the tag, and leaves the other one alone |
| `Shim.Process.ArenaFreeze` | runtime/src/arena.c:41-62 | protects the static arena, and changes nothing else |
| `Shim.Process.WriteObject` | compiler.py:324-346 | reference count first, then every field |
| `Shim.Process.Invoke` | runtime/shim/src/main.rs:36-43 | runs compiled code over both arenas in place: each command takes the specified step |
| `Shim.Process.Handle` | runtime/shim/src/main.rs:35-48 | the answer to an event in the response buffer, its length as the position, the request arena reset; a response up to the guard page of the buffer is sent |
| `Shim.Process.LambdaEventLoop` | runtime/rust-binding/src/api.rs:42-64 | over whole runs: every event is answered, under the id of its own poll, as by the process that entered the loop with its request arena reset; a process that dies leaves its last poll without a POST; read off the log of a run in which no exchange goes wrong: request 2i is the GET, and request 2i + 1 exists if and only if the exchange of the handler with memory for the i-th body ends in some t that fits into the response buffer, and then is a POST to `/response` of the i-th id whose content is t |
| `Shim.Start` | runtime/shim/src/main.rs:23-48 | init, freeze and loop in this order: the same, starting from what the top-level statements left |
| `Shim.AnswersAlike` | runtime/src/arena.c:37-39 | processes that differ only in what earlier requests left behind give the same answers |
| `Shim.AnswerIff` | runtime/shim/src/main.rs:35-44 | a process answers an event with t if and only if the handler's exchange with memory ends in t, and t fits into the response buffer |
| `Shim.TranscriptCarries` | runtime/rust-binding/src/api.rs:50-63 | the argument behind what the log says, for any playable sequence of exchanges |
| `Shim.InitialisedIff` | runtime/shim/src/main.rs:26-33 | the process begins to poll if and only if the exchange of the top-level statements ends; then the static arena is frozen, and memory holds what they have last written |
| `Shim.ServedLike` | runtime/shim/src/main.rs:44-47 | serving a request and resetting comes down to resetting |
| `Shim.SameProcessAnswers` | runtime/shim/src/main.rs:35-48 | for any process that a reset leaves as it is: each POST of a transcript carries the answer of that one process to the event of its poll |
| `Shim.EveryEventAnsweredAsFirst` | compiler.py:827-840 | if the top-level statements allocate with their own tag only: in the transcript of any run, the i-th POST goes to the id of the i-th poll and carries the answer that the one process after init gives to that event |

## Left out

Of the compiler:
- Function and method calls, classes with methods, strings, floats, pointers and C imports in function bodies: the lowering is proved for the call-free int and array fragment. Names therefore resolve to local variables only; the visitor would go on to functions and types.
- llvmlite's type checks: an array address where an int is needed, or an int where an array is, is the error TypeMismatch, and constants outside int64 are refused; llvmlite itself accepts or prints some such code, as in a comparison of two array addresses.
- LLVM poison: a shift by 64 or more, a remainder by zero, INT64_MIN % -1, an index outside the array and the read of a cell never written are undefined at once.
- The arena context and arena tags kept by the visitor, and the code emitted for object construction; objects appear in `Isolation` by what their constructors write.
- FunctionCompiler.Compiler.VisitStmt: blocks have numbers instead of names, and the two-operand address computation of an array element is one instruction.

Of the HTTP runtime:
- Sockets, TLS, name resolution, timeouts, failing `send` calls and the log. Bytes are chars; `atoi` does not overflow, and stops at the end of the buffer if stale digits go on up to there.
- HttpParser.ChunkingIrrelevant: its premises are those of HttpLimits.ChunkingIrrelevantIff below the capacity, which shows that they are exact.
- HttpReceive.Http: once `remain` is negative, its value as an unsigned length is taken to be more than any stream; a write at the guard page ends the run.
- HttpReference.HeadersAsFieldLines: premises on lines, in `PlainLine`: recognised names in their exact case with `: ` and a value without colon, and no text up to a last colon that is a proper prefix of a recognised name, since the code would take it for the name (RecognitionIff is exact for each line).
- Protocol.Runtime.GetNextRequest: with an id but no blank line within the capacity, `http` computes a length by subtracting a null pointer, which is undefined in C, and the code goes on to hand it and the null body to the handler; here the loop stops as NullBody.
- Protocol.Runtime.StartLambda: behind the first exchange that goes wrong nothing is promised about the requests; the error texts other than the handler error, and the init error endpoint, are left out.

Of JSON:
- Nested values, arrays, true, false and null, and numbers with a fraction or an exponent: the reader does not know them. Keys are identifiers, as field names are.
- CodecRoundTrip.FieldRoundTripIff: for records with a quote that has no backslash in front, only the reading back of the whole record is settled (RoundTripIff).
- Codec.ReadRecord: an int whose digits leave int64 is an error here and undefined in C.
- Codec.LambpieHandle: like the code it does not check the capacity; the caller provides a buffer that is large enough. The handler is a function from events to records; what it does with an unset string is up to it.

Of the model parser:
- Locations, wire names, service metadata and HTTP details of operations, and the text of the generated module: classes and stubs are lists of fields. Loading models and the command line are left out.
- PieGenerator.GeneratedCompilesIff: the built-in type names are a parameter; only class definitions are compiled, not the stubs behind them.

Of arenas and processes:
- `mmap` and `mprotect`: the mappings are given as page-aligned addresses, and freezing is a flag that makes the next construction in the static arena crash. Sizes near 2^64, where `size + 7` wraps, do not occur, as sizes are numbers.
- Objects are words of 8 bytes; the padding of a 4-byte reference count is part of its word.
- Request-tagged allocation in helper functions: which tag an allocation has is up to the handler in the model.
- Shim.Process.Invoke: a handler that does not stop is stopped after a number of steps, as the platform does; loads outside the objects the code can know are undefined.
