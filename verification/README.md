# Verified models of snix

Dafny models of the algorithmic core of snix, each in its own module, with the
properties its code is there for proved for all inputs, all runs or all reachable
states.

| file | what it models |
|---|---|
| `Composition.dfy` | the composition of stores as a concurrent transition system: every interleaving of builds that resolve each other through shared slots, with fork/join inside builders |
| `DepthFirstBuilds.dfy` | that system with builders that ask before they wait: each build makes its requests depth first, builders and waiting calls finish whenever they like |
| `SequentialBuild.dfy` | the same code as an object with a mutable slot map, driven by one build at a time whose builders never suspend |
| `ReferenceReader.dfy`, `Chunking.dfy` | the streaming reference scanner: a sliding buffer with overlap, for any chunking, any pending point and any consumer; and which marks depend on the chunking |
| `Nixbase32.dfy` | nixbase32: windows over two bytes when encoding, carries and a validity mask when decoding |
| `HashScanner.dfy` | the hash scanner: block masks, leading and trailing ones, and a loop that skips |
| `Weave.dfy` | names replaced by row numbers with an in-band null, a chunked list, and marking |
| `BytecodeChunk.dfy` | variable-length instructions, two decoders, jump patching and run-length spans |
| `Turbofetch.dfy` | a mirrored ring buffer and a reader of pipelined responses on top of it |
| `CastoreDirectory.dfy`, `NarExport.dfy` | validation and size of directories; export with an explicit stack and a draining three-way merge |
| `KnownPaths.dfy`, `BuildState.dfy` | the tables of known derivations, and the recursive build that follows them |
| `StructuredAttrs.dfy` | the shell script of structured attributes, with a reader of shell quoting |
| `SerdeBridge.dfy` | typed values to Nix values and back |
| `Wrappers.dfy` | `Option` and machine numbers |

Some main results say when the code does *not* do what one might expect, and
exactly when it does:

- Concurrent builds can deadlock, because the recursion check sees only the stack of
  the asking task. `Composition.DeadlockIffKnot` says for which configurations: iff there
  is a non-empty set of stores each of which refers to another one of the set, some
  builds on some schedule deadlock. `DepthFirstBuilds.OrderedDeadlockIffKnot` says that
  this stays so if builders ask for their references before they wait for anything, as
  those that come with snix do; each build then makes its requests depth first. In such a
  deadlock every unfinished build waits for another one
  (`DepthFirstBuilds.StuckBuildsWait`), so that one build alone never gets stuck, on any
  graph, however long its builders take after their requests
  (`DepthFirstBuilds.LoneBuildGoesOn`). Its calls may have to wait for each other
  (`DepthFirstBuilds.LoneBuildWaits`), unless no builder suspends at all
  (`SequentialBuild.Stores.Build`).
- Which *given* builds can deadlock is characterised by `Composition.DeadlockIffTangle`,
  over schedules that may suspend a builder before any of its requests.
  `SequentialBuild.ForkSuspended` and `SequentialBuild.ForkFollowed` are one configuration
  on which such builders make the difference.
- `write_attrs_sh_file` panics iff a valid-named array has a nested array or object
  that no fractional number precedes (`StructuredAttrs.WriteAttrs`; at an input,
  `StructuredAttrs.NestedArrayPanics`).
- Values are not always declared as they are: whole floats are cast to 64-bit integers.
  `StructuredAttrs.LargeFloatsLost` is an input, and `StructuredAttrs.WriteAttrs` has the
  exact condition.
- An object with an empty key is declared with an empty subscript, which the shell
  refuses. `StructuredAttrs.EmptyKeyRefused` is an input, and `StructuredAttrs.WriteAttrs`
  says that what is written is refused iff a declared object has such a key.
- The marks of the streaming reader can depend on how the stream is cut
  (`Chunking.ChunkingMatters`). For needles of one length, such as the digests a build is
  scanned for, `Chunking.AlwaysIff` says for which needle: it is marked for every way of
  cutting the stream iff it has an occurrence over whose beginning no other needle
  reaches. For needles of any lengths such an occurrence suffices
  (`ReferenceReader.ReadToEnd`).
- A build service that names a needle out of range makes `store_path_to_path_info` fail
  after the outputs before that one were stored. `BuildState.BrokenStore` is an input on
  which a reference is then missing, and `BuildState.State.StorePathToPathInfo` says
  exactly when one is: iff, in the service's answer to the last build, an output before
  the bad one refers to an output that was not stored. An answer with too few entries
  can leave the same without an error (`BuildState.ShortAnswer`).
- A derivation may need itself through references of stored paths that are not stored
  (`BuildState.SelfNeeding`), and what `store_path_to_path_info` has to build first then
  has no end (`BuildState.State.Endless`). If nothing the path needs is such a derivation
  the recursion ends (`BuildState.State.GroundedIff`), and so it always does with a store
  closed under references (`BuildState.State.ClosedGrounded`).
- `from_value(to_value(v))` is not always `v`: `SerdeBridge.PresentUnitLost` is the
  smallest loss, `SerdeBridge.RoundTrip` says that the value comes back iff no option
  in it is present around something written as null, and `SerdeBridge.SafeIff` for
  which types that cannot happen.

The code decides where it and its documentation differ: `ReferenceReader::with_capacity`
does not rule out a capacity that ends up as zero (no needles, nothing requested, no
slack from the allocator), and then nothing is ever delivered
(`ReferenceReader.NothingDelivered`).

## Model

| member | source | states |
|---|---|---|
| Composition.InitInv | snix/castore/src/composition.rs:507-531 | the initial state of any set of top-level builds satisfies the invariant |
| Composition.StartInv | snix/castore/src/composition.rs:309-320 | taking a request keeps the invariant: recursion refused by the stack, missing store refused, pending slot taken, otherwise waiting |
| Composition.SpawnInv | snix/castore/src/composition.rs:387-398 | forking the references of a builder, with the stack extended, keeps the invariant |
| Composition.FinishInv | snix/castore/src/composition.rs:397-405 | joining the references and publishing the result keeps the invariant |
| Composition.WakeInv | snix/castore/src/composition.rs:412-423 | a waiting task that sees a published result returns just that |
| Composition.StepInv | snix/castore/src/composition.rs:350-430 | every atomic step keeps the invariant, moves only the stepping task and its own slot, and never unpublishes |
| Composition.ReachableInv | snix/castore/src/composition.rs:359-429 | in every interleaving each builder is started at most once and no placeholder is ever visible |
| Composition.ResultsAreFinal | snix/castore/src/composition.rs:397-423 | over any run, published results and outcomes of finished calls never change |
| Composition.BuildVerdict | snix/castore/src/composition.rs:304-337 | a finished build succeeded iff its store is good, whatever ran concurrently; an error is explained by a path of references to a missing store, a failing builder, a malformed reference, or a store whose reference closes exactly the reported stack into a cycle; it is the one that the first bad reference of the store gives, in the order of its references |
| Composition.JoinOutcomeIs | snix/castore/src/blobservice/combinator.rs:144-151 | the joined outcome is that of the first failed reference, and the builder's own if none failed |
| Composition.KidGives | snix/castore/src/composition.rs:304-337 | a call for a reference fails iff the reference is malformed or its store cannot be built, with the error of that: the malformed text, the stack with the store itself, the missing name, or the error in the slot of its store |
| Composition.FinishDecides | snix/castore/src/composition.rs:397-405 | the error published is what the first bad reference gives, and the builder's own failure if there is none |
| Composition.ErrorDecided | snix/castore/src/composition.rs:397-423 | so for every published error in every reachable state |
| Composition.BuildsAgree | snix/castore/src/composition.rs:359-429 | two finished builds of one store return the same instance or the same error |
| Composition.GoodIffUnexplained | snix/castore/src/composition.rs:465-482 | a store is good, by a derivation of finite height, iff no path of references explains an error |
| Composition.StackCycle | snix/castore/src/composition.rs:310-318 | what the stack check refuses is a cycle, and the reported stack is the path of references that closes it |
| Composition.RunsTerminate | snix/castore/src/composition.rs:350-430 | on any reference graph every run has at most so many atomic steps |
| Composition.StuckMakesKnot | snix/castore/src/composition.rs:410-423 | where nothing can move and a build is unfinished, the unpublished stores refer to each other in a knot |
| Composition.LineStep | snix/castore/src/composition.rs:387-405 | a call has a builder waiting for it until it has finished, and the stacks of calls are paths without repetition from top-level builds |
| Composition.StuckMakesTangle | snix/castore/src/composition.rs:410-423 | where the given builds are stuck, the stores under construction with the stacks of their builders are a tangle |
| Composition.HeldStep | snix/castore/src/composition.rs:350-430 | once the stores of a tangle are under construction along their paths no step can publish any of them |
| Composition.TangleDeadlocks | snix/castore/src/composition.rs:350-430 | for every tangle of the given builds there is a schedule, suspending builders before their requests, that ends in a deadlock |
| Composition.DeadlockIffTangle | snix/castore/src/composition.rs:350-430 | over schedules that may suspend a builder before any request, the given builds can deadlock iff they have a tangle: stores they reach, each along one path of references without repetition that extends the path of the store before it, and each referring to another of them off its own path |
| Composition.KnotDeadlocks | snix/castore/src/composition.rs:310-318 | for every knot, one build of each of its stores can end in a deadlock |
| Composition.DeadlockIffKnot | snix/castore/src/composition.rs:350-430 | a deadlock is reachable for some choice of builds and some schedule iff the configuration contains a knot |
| Composition.RankedBuildsFinish | snix/castore/src/composition.rs:350-430 | with references that go down in rank, whenever nothing can move all builds have finished, each with the right verdict |
| DepthFirstBuilds.OrderStep | snix/castore/src/composition.rs:350-430 | every step in depth-first order keeps that within a build unfinished requests lie on one line and that whatever a call waits for in its own build has made all its requests before it |
| DepthFirstBuilds.WaitingBelow | snix/castore/src/composition.rs:387-423 | where nothing can move, below every unfinished builder a call is waiting |
| DepthFirstBuilds.WaitsAbroad | snix/castore/src/composition.rs:410-423 | where nothing can move, a build in which a call waits has a call that waits for a store under construction in another build |
| DepthFirstBuilds.StuckBuildsWait | snix/castore/src/composition.rs:410-423 | where nothing can move, every unfinished build has a call waiting for a store that another unfinished build has under construction |
| DepthFirstBuilds.KnotDeadlocksOrdered | snix/castore/src/composition.rs:310-318 | for every knot, one build of each of its stores can end in a deadlock, all requests being made depth first |
| DepthFirstBuilds.OrderedDeadlockIffKnot | snix/castore/src/composition.rs:350-430 | if builders ask before they wait, a deadlock is reachable for some choice of builds iff the configuration contains a knot |
| DepthFirstBuilds.LoneBuildGoesOn | snix/castore/src/composition.rs:304-430 | on any graph, a build on its own whose builders ask before they wait is never stuck: it can always go on depth first or has finished, and then succeeded iff its store is good |
| DepthFirstBuilds.LoneBuildWaits | snix/castore/src/composition.rs:410-423 | a call of one build may have to wait for another: a store referred to twice whose builder takes its time |
| SequentialBuild.Stores.Build | snix/castore/src/composition.rs:524-531 | one build whose builders never suspend, on any graph, terminates without ever waiting; it succeeds iff the store is good and otherwise reports an explained error, which is what the first bad reference of the store gives |
| SequentialBuild.Stores.Resolve | snix/castore/src/composition.rs:304-337 | the slots in progress without a result are exactly the stack before and after; recursion and malformed references are refused with an explained error; it fails iff the reference is bad, with the error the reference gives |
| SequentialBuild.Stores.BuildInternal | snix/castore/src/composition.rs:350-430 | the placeholder never stays, the wait never blocks, and the slot ends up with the result returned |
| SequentialBuild.Stores.Construct | snix/castore/src/composition.rs:382-409 | the builder resolves its references with the stack extended and its result is the verdict on the store; an error is what its first bad reference gives, or its own failure |
| SequentialBuild.RejectsRecursion | snix/castore/src/composition.rs:573-592 | the two caches that refer to each other are not good, so building either is an error, and they form a knot |
| SequentialBuild.OneAloneTwoTogether | snix/castore/src/composition.rs:573-592 | of the two caches, one build alone never gets stuck, and a build of each can deadlock |
| SequentialBuild.ForkSuspended | snix/castore/src/composition.rs:387-405 | one build of a store that refers to two stores referring to each other can get stuck if builders are suspended before their requests |
| SequentialBuild.ForkFollowed | snix/castore/src/composition.rs:304-337 | followed request after request, the same build fails with the cycle instead |
| SequentialBuild.OnlyRecursion | snix/castore/src/composition.rs:465-482 | where every reference is configured and no builder fails by itself, a cycle is the only reason to fail |
| ReferenceReader.PatternOf | snix/castore/src/refscan.rs:47-66 | the longest candidate bounds every candidate and is one of them, or zero if there are none |
| ReferenceReader.OccursSplit | snix/castore/src/refscan.rs:198-207 | a needle occurs in old and new bytes iff it occurs in the old ones or in the new ones with the kept overlap before them |
| ReferenceReader.ScanWindow | snix/castore/src/refscan.rs:190-235 | scanning the window adds exactly what a scan of everything so far would add |
| ReferenceReader.Scanner.Scan | snix/castore/src/refscan.rs:95-106 | the matches grow by exactly what a search from left to right reports that goes on behind each match |
| ReferenceReader.SearchIs | snix/castore/src/refscan.rs:92-106 | such a search reports only needles that occur, and all that have an occurrence over whose beginning no other needle reaches |
| ReferenceReader.CaughtUp | snix/castore/src/refscan.rs:190-235 | searching the buffer marks only needles of the stream read so far, and all with a clear occurrence in it |
| ReferenceReader.Reader.Slide | snix/castore/src/refscan.rs:198-207 | moving the tail to the front keeps the last bytes, at most an overlap of them, and delivers nothing |
| ReferenceReader.Reader.Refill | snix/castore/src/refscan.rs:208-229 | reads until something deliverable is there, the stream ends, or the inner reader is pending |
| ReferenceReader.Reader.PollFillBuf | snix/castore/src/refscan.rs:190-235 | what it returns is the next slice of the stream; an empty answer only at the end, with the scan complete |
| ReferenceReader.Reader.Consume | snix/castore/src/refscan.rs:237-241 | the delivered position moves by the amount consumed |
| ReferenceReader.Reader.PollRead | snix/castore/src/refscan.rs:172-188 | copies a prefix of the next slice, moves on by its length, and changes no position when pending |
| ReferenceReader.ReadToEnd | snix/castore/src/refscan.rs:155-241 | for every chunking, pending point, capacity and sequence of read sizes the whole stream is delivered; only needles that occur are marked, all that have a clear occurrence are, and if that is all that occur exactly those that one scan of the stream marks; with capacity zero nothing is delivered |
| ReferenceReader.ApartUnhidden | snix/castore/src/refscan.rs:92-106 | where occurrences of different needles never overlap every needle that occurs has a clear occurrence |
| Chunking.ReadInPieces | snix/castore/src/refscan.rs:155-241 | a reader that gets its stream in given pieces marks what searches of these pieces, with the overlap, report |
| Chunking.Hide | snix/castore/src/refscan.rs:190-235 | for needles of one length, if other needles reach over the beginnings of all occurrences of one there are pieces no search of which reports it |
| Chunking.AlwaysIff | snix/castore/src/refscan.rs:190-235 | for needles of one length, one is marked for all pieces iff it has a clear occurrence |
| Chunking.SometimesIff | snix/castore/src/refscan.rs:190-235 | it is marked for some pieces iff it occurs |
| Chunking.ReadsMatter | snix/castore/src/refscan.rs:155-241 | for needles of one length the marks do not depend on the pieces iff every needle that occurs has a clear occurrence |
| Chunking.ChunkingMatters | snix/castore/src/refscan.rs:92-106 | with overlapping needles the marks depend on the reads: a reader of "aba" with the needles "ab" and "ba" marks the first if it gets the stream at once, and both if it gets two bytes and then one |
| ReferenceReader.NothingDelivered | snix/castore/src/refscan.rs:155-164 | with no candidates, nothing requested and no slack a stream that is not empty is not delivered |
| Nixbase32.DigitIs | snix/nix-compat/src/nixbase32.rs:17-41 | the window over two bytes gives digit n of the base-32 number |
| Nixbase32.AllDigitsValue | snix/nix-compat/src/nixbase32.rs:17-41 | the digits as a base-32 number have the value of the bytes as a base-256 number |
| Nixbase32.EncodeWith | snix/nix-compat/src/nixbase32.rs:17-41 | the loop writes the encoding |
| Nixbase32.EncodedValue | snix/nix-compat/src/nixbase32.rs:17-41 | an encoding is over the alphabet, has the encoded length and the value of the bytes |
| Nixbase32.EncodedUnique | snix/nix-compat/src/nixbase32.rs:17-41 | a string of that length and value over the alphabet is the encoding |
| Nixbase32.EncodedInjective | snix/nix-compat/src/nixbase32.rs:17-41 | different byte strings have different encodings |
| Nixbase32.RepresentsStep | snix/nix-compat/src/nixbase32.rs:96-107 | one digit shifted into a byte and a carry extends the number represented by exactly that digit |
| Nixbase32.ReadDigits | snix/nix-compat/src/nixbase32.rs:92-110 | the loop leaves in buffer and carry the number of all digits, and in the mask whether one was invalid |
| Nixbase32.DecodeInner | snix/nix-compat/src/nixbase32.rs:92-125 | succeeds iff every character is valid and the value fits, and then the bytes have that value |
| Nixbase32.FindInvalid | snix/nix-compat/src/nixbase32.rs:127-136 | finds the first invalid character; when called, there is one |
| Nixbase32.DecodeWith | snix/nix-compat/src/nixbase32.rs:61-75 | returns bytes iff the input is their encoding, an error iff it is nobody's encoding; a length error iff no encoding has that length, otherwise the first invalid symbol, otherwise trailing bits, each at its position |
| Nixbase32.DecodeFixedWith | snix/nix-compat/src/nixbase32.rs:77-90 | returns the bytes of the fixed length that the input encodes; otherwise the same kinds of error at the same positions |
| Nixbase32.DecodersAgree | snix/nix-compat/src/nixbase32.rs:61-90 | on inputs of the fixed length both decoders give the same bytes or the same error |
| Nixbase32.LengthUnmatched | snix/nix-compat/src/nixbase32.rs:138-145 | the length test refuses exactly the lengths that no encoding has |
| Nixbase32.AlphabetAt | snix/nix-compat/src/nixbase32.rs:14 | the alphabet has at each place the symbol that stands for that digit |
| Nixbase32.NixSymbols | snix/nix-compat/src/nixbase32.rs:14 | its symbols are exactly the digits and lower-case letters without e, o, t and u, and stand for their places among these |
| Nixbase32.EncodesIff | snix/nix-compat/src/nixbase32.rs:17-41 | the encoding is exactly the text over these symbols, of the least sufficient length, that denotes the number of the bytes |
| Nixbase32.Encode | snix/nix-compat/src/nixbase32.rs:17-41 | writes that text |
| Nixbase32.Decode | snix/nix-compat/src/nixbase32.rs:61-75 | gives the bytes that a text encodes and an error iff it encodes none: of the length iff no encoding has it, of the first character that is no symbol, or of bits left over |
| Nixbase32.RoundTrip | snix/nix-compat/src/nixbase32.rs:17-75 | decoding undoes encoding for every byte string |
| HashScanner.PrefilterBit | contrib/refscan/src/lib.rs:6-10 | the four signed comparisons hold iff the byte is in [a-z0-9], for all bytes including those above 127 |
| HashScanner.CandidateMakesRun | contrib/refscan/src/lib.rs:27-33 | an alphanumeric window that starts in a block gives at least 32 ones over the block boundary, and does not start before the first one |
| HashScanner.RunStarts | contrib/refscan/src/lib.rs:28-33 | where a long run is reported it begins with an alphanumeric byte, so the outer loop advances |
| HashScanner.ScanClean | contrib/refscan/src/lib.rs:14-37 | no alphanumeric window starts in the prefix returned; a full answer covers all whole blocks, another one stops at an alphanumeric byte |
| HashScanner.AlnumPrefix | contrib/refscan/src/main.rs:34-40 | the longest alphanumeric prefix |
| HashScanner.ScanRun | contrib/refscan/src/main.rs:42-53 | the windows of a maximal run give exactly the hits that start in it |
| HashScanner.NaiveSkip | contrib/refscan/src/main.rs:26-32 | nothing is found where no candidate starts |
| HashScanner.Scan | contrib/refscan/src/main.rs:24-57 | for every input the loop ends and its hits are, in order, all windows that are alphanumeric needles |
| HashScanner.NothingMissed | contrib/refscan/src/main.rs:24-57 | for alphanumeric needles that is what looking at every window finds |
| Weave.BuildIndex | contrib/weave/src/bin/swizzle.rs:58-64 | every row is entered under its 64-bit hash with its number |
| Weave.PhToIdx | contrib/weave/src/bin/swizzle.rs:69-77 | a known name gives a row with that name, an unknown one the null, which is no row |
| Weave.Swizzle | contrib/weave/src/bin/swizzle.rs:84-107 | every reference of every row is replaced by what it points to, in place |
| Weave.NewChunkedList | contrib/weave/src/main.rs:231-251 | the index serves every row of the concatenated chunks although an empty chunk and its successor share an offset |
| Weave.AddChunk | contrib/weave/src/main.rs:236-251 | adding a chunk, empty or not, keeps all earlier rows and serves its own |
| Weave.IndexList | contrib/weave/src/main.rs:255-260 | the lookup returns that row of the concatenation |
| Weave.ResolveRoots | contrib/weave/src/main.rs:56-68 | each root gets its row number or stays null; the duplicate assertion fails iff a root occurs in two rows |
| Weave.StartFrom | contrib/weave/src/main.rs:70-86 | the frontier is exactly the rows that are roots |
| Weave.Round | contrib/weave/src/main.rs:128-141 | one round gives only unseen children and closes the frontier |
| Weave.Mark | contrib/weave/src/main.rs:118-154 | marking ends; everything seen is live, and what is seen is closed under references |
| Weave.ClosedHasChain | contrib/weave/src/main.rs:118-154 | a closed set with the roots contains every row on a chain of references from a root |
| Weave.Trace | contrib/weave/src/main.rs:51-154 | the rows traced are exactly those whose hash is reachable from the roots over known rows, by names |
| BytecodeChunk.OpArguments | snix/eval/src/opcode.rs:284-309 | every operation of the enumeration has the kind of argument it is given there |
| BytecodeChunk.OpNumbers | snix/eval/src/opcode.rs:63-269 | the numbers with their own decoding are the positions of these operations |
| BytecodeChunk.ReadUvarintIs | snix/eval/src/chunk.rs:57-74 | the nine-byte window reads back a pushed number and its length wherever it lies, also at the end of the code |
| BytecodeChunk.OpLength | snix/eval/src/chunk.rs:272-306 | the length computed for counting is the instruction's |
| BytecodeChunk.DisassembleOp | snix/eval/src/chunk.rs:179-262 | the size to skip is the instruction's, and what is shown are the operands emitted, jump offset included |
| BytecodeChunk.Chunk.Emit | snix/eval/src/chunk.rs:44-80 | the index returned is where the instruction lies; earlier code and boundaries stay, and the span table stays right |
| BytecodeChunk.Chunk.PatchJump | snix/eval/src/chunk.rs:82-85 | only the operand of that jump changes and all boundaries stay |
| BytecodeChunk.JumpOffset | snix/eval/src/chunk.rs:82-85 | the jump ends at the next emitted instruction iff the distance is below 65536 |
| BytecodeChunk.LaidPatch | snix/eval/src/chunk.rs:82-85 | overwriting the operand bytes of a jump keeps the layout of all instructions |
| BytecodeChunk.Chunk.OpCount | snix/eval/src/chunk.rs:266-310 | the count is the number of instructions emitted |
| BytecodeChunk.Chunk.DisassembleChunk | snix/eval/src/observer.rs:254-265 | walking from zero visits exactly the indices emitted and shows there the instructions emitted |
| BytecodeChunk.GetSpan | snix/eval/src/chunk.rs:138-155 | the binary search finds the last entry that starts at or before the offset |
| BytecodeChunk.PushSpanRight | snix/eval/src/chunk.rs:124-136 | merging equal neighbours keeps the table right for every byte |
| BytecodeChunk.Chunk.GetSpanAt | snix/eval/src/chunk.rs:124-155 | every byte of an instruction gives the span the instruction was emitted with |
| Turbofetch.MaskWraps | contrib/turbofetch/src/buffer.rs:60-62 | masking with a power of two less one is the remainder |
| Turbofetch.Buffer.Data | contrib/turbofetch/src/buffer.rs:45-54 | the readable slice is the queue, whether or not it wraps |
| Turbofetch.Buffer.Consume | contrib/turbofetch/src/buffer.rs:57-63 | the queue loses exactly its first bytes |
| Turbofetch.Buffer.Write | contrib/turbofetch/src/buffer.rs:66-75 | writing into the space changes no queued byte |
| Turbofetch.Buffer.Commit | contrib/turbofetch/src/buffer.rs:78-82 | the queue gains exactly the bytes written |
| Turbofetch.SizeLaw | contrib/turbofetch/src/buffer.rs:38-42 | readable and writable lengths and one add up to the capacity |
| Turbofetch.GetContentLength | contrib/turbofetch/src/lib.rs:24-47 | the loop gives what the first relevant header says, or an error if there is none |
| Turbofetch.FirstDecides | contrib/turbofetch/src/lib.rs:24-47 | the relevant header at the least index decides, and what it says is an error or the length |
| Turbofetch.Slurp | contrib/turbofetch/src/lib.rs:9-22 | queue and stream together stay the same; fails iff the queue is full or the stream has ended |
| Turbofetch.ReadHead | contrib/turbofetch/src/lib.rs:60-82 | for every way a stream begins: a header block that fits is consumed exactly and its status or length is the answer, rejected bytes are invalid data, a stream that ends within the block is an unexpected end, and what fills the queue first is out of memory |
| Turbofetch.ReadBody | contrib/turbofetch/src/lib.rs:93-102 | returns the next bytes and leaves what follows; fails iff the stream is too short |
| Turbofetch.ParseResponse | contrib/turbofetch/src/lib.rs:56-103 | for every stream: rejected and unfinished header blocks, another status than 200, a missing or bad length, a head or body that does not fit and a body cut short are told apart; otherwise the body is returned and exactly what follows it is left |
| Turbofetch.ReadAll | contrib/turbofetch/src/lib.rs:56-103 | for every chunking of a stream of 200 responses that fit, successive calls return the bodies in order and leave exactly what follows |
| CastoreDirectory.ValidateList | snix/castore-go/castore.go:156-208 | a list passes iff all entries are valid, names strictly increase and none was seen before; otherwise the fault is that of the first entry that breaks this, checked in that order |
| CastoreDirectory.Validate | snix/castore-go/castore.go:121-212 | accepts exactly the valid directories; the fault is that of the first faulty list |
| CastoreDirectory.Size | snix/castore-go/castore.go:15-22 | the 64-bit loop gives the sum modulo 2^64, hence the sum if it fits |
| CastoreDirectory.LessIs | snix/castore-go/castore.go:134-142 | the order is that of the first difference, a proper prefix coming first |
| CastoreDirectory.ValidNameIs | snix/castore-go/castore.go:47-52 | names are valid iff not empty, without null bytes and slashes, and not one or two dots |
| CastoreDirectory.ValidEntryIs | snix/castore-go/castore.go:55-91 | an entry is valid iff its name is, its digest has 32 bytes, and a link target is not empty and has no null byte |
| CastoreDirectory.LessTotal | snix/castore-go/castore.go:134-142 | byte order is total (beside irreflexive and transitive), so distinct names are always comparable |
| NarExport.SmallestLeads | snix/store-go/export.go:216-273 | in all eight cases the node chosen comes no later than the head of each list |
| NarExport.DrainFirst | snix/store-go/export.go:196-212 | draining removes one entry, which comes before all that remain, and keeps the lists sorted and disjoint |
| NarExport.MergedSorted | snix/store-go/export.go:196-273 | draining to the end lists exactly the entries of the directory in name order |
| NarExport.SortedUnique | snix/store-go/export.go:196-273 | that order is the only one |
| NarExport.EmitStep | snix/store-go/export.go:131-187 | one iteration writes the first pending header and leaves the rest pending, with less work left, or fails with just that header |
| NarExport.DrainStack | snix/store-go/export.go:112-189 | the explicit-stack loop ends and writes the recursive listing of what is on the stack |
| NarExport.DescribesIs | snix/store-go/export.go:131-187 | the kind of a header is that of its entry, with its executable bit, its size as the signed number of the same 64 bits, and its target |
| NarExport.ExportTree | snix/store-go/export.go:18-191 | the export of a root of any kind is the recursive preorder listing, failures included; a file or link is one header that describes it |
| NarExport.PathLessIs | snix/store-go/export.go:112-189 | paths are ordered by the first component that differs, a proper prefix coming first |
| NarExport.ListingIncreasing | snix/store-go/export.go:112-189 | the paths of a listing strictly increase component by component |
| NarExport.ExportIncreasing | snix/store-go/export.go:112-189 | so do those of an export, the root coming first |
| NarExport.ExportGoesThrough | snix/store-go/export.go:112-189 | the export succeeds iff everything reachable by following names can be looked up |
| NarExport.ExportMeans | snix/store-go/export.go:112-189 | every header written describes an entry at its path, and every entry below the root is described by one if the export goes through |
| NarExport.ExportLeaf | snix/store-go/export.go:45-88 | the listing of a file or a link is one header with the empty path that describes it; only a file whose contents are missing fails |
| NarExport.ListingCount | snix/store-go/export.go:112-189 | with right size fields a listing has as many headers as the fields say |
| NarExport.ExportCount | snix/castore-go/castore.go:12-22 | with right size fields the number of headers is one more than the size of the root directory |
| KnownPaths.MemoIsRecursive | snix/build-glue/src/known_paths.rs:75-80 | every memoised hash is the one defined by recursion over the input graph |
| KnownPaths.Table.EnterOutputs | snix/build-glue/src/known_paths.rs:82-88 | new outputs are entered and existing entries stay |
| KnownPaths.Table.AddDerivation | snix/build-glue/src/known_paths.rs:66-105 | the tables stay consistent: closed under inputs, inputs strictly earlier, hashes right, each output leading to a derivation that has it and was inserted no later than any other that has it; adding again changes nothing |
| KnownPaths.Table.AddFetch | snix/build-glue/src/known_paths.rs:110-124 | only the fetch of that output changes |
| KnownPaths.Table.GetHashDerivationModulo | snix/build-glue/src/known_paths.rs:41-45 | a known derivation, and only that, has a hash, the recursively defined one |
| KnownPaths.Table.GetDrvForOutput | snix/build-glue/src/known_paths.rs:48-59 | a path leads to a derivation iff some known derivation has it as output, and to one that has it |
| KnownPaths.AddAgain | snix/build-glue/src/known_paths.rs:66-105 | adding a known derivation recomputes the same hash and changes no output |
| KnownPaths.AddNew | snix/build-glue/src/known_paths.rs:66-105 | adding a new derivation after its inputs keeps the tables consistent |
| BuildState.InputOutputsAll | snix/build-glue/src/builder/mod.rs:56-79 | every output an input names is queued |
| BuildState.InputOutputsOnly | snix/build-glue/src/builder/mod.rs:56-79 | only outputs that the derivation asks its inputs for are queued besides the sources |
| BuildState.DirectInputsAre | snix/build-glue/src/builder/mod.rs:56-79 | the queue starts with the sources and, for every output an input is asked for, that output, and with nothing else |
| BuildState.Enqueue | snix/build-glue/src/builder/mod.rs:83-87 | exactly the references not visited before are appended, each once |
| BuildState.PutAll | snix/build-glue/src/build_state.rs:229-288 | outputs are stored in order, each with exactly the paths at the positions its entry of the answer names, up to the first needle out of range, the last output or the last entry |
| BuildState.ShortAnswer | snix/build-glue/src/build_state.rs:229-288 | an answer with fewer entries than outputs can leave a reference to an output that is not stored |
| BuildState.PutClosed | snix/build-glue/src/build_state.rs:229-288 | storing outputs keeps the store closed under references iff what the last entry of each refers to is stored or among them |
| BuildState.State.InputBelow | snix/build-glue/src/build_state.rs:145-158 | an output of an input resolves to a derivation inserted strictly earlier |
| BuildState.State.ClosedGrounded | snix/build-glue/src/build_state.rs:145-183 | with a closed store the order of insertion bounds the recursion |
| BuildState.State.GroundedIff | snix/build-glue/src/build_state.rs:145-183 | for any store, closed or not, there are levels from a derivation down that every recursive call goes down iff it needs, directly or not, no derivation that needs itself through stored references |
| BuildState.State.Endless | snix/build-glue/src/build_state.rs:145-183 | if a derivation needs one that needs itself there are chains of needs of any length from it |
| BuildState.SelfNeeding | snix/build-glue/src/build_state.rs:145-183 | a stored source that refers to the missing output of a derivation with that source makes the derivation need itself, so that producing that output has no end |
| BuildState.State.GetAllInputs | snix/build-glue/src/builder/mod.rs:46-92 | ends; what it yields is the closure of the direct inputs under references: nothing missing, each item named directly or by an earlier one, all stored |
| BuildState.State.Build | snix/build-glue/src/build_state.rs:190-292 | a finished build with needles in range stores all outputs with the references their needles stand for; otherwise it is an error after exactly the outputs before the first one with a needle out of range were stored |
| BuildState.State.Resolve | snix/build-glue/src/build_state.rs:87-292 | the recursion is well-founded; the lookup of the derivation never fails |
| BuildState.State.StorePathToPathInfo | snix/build-glue/src/build_state.rs:87-306 | unless something the path needs needs itself, the call ends and no derivation is built twice: stored paths unchanged, unknown ones reported unknown iff no table has them, a fetched path returned without references and a built one with exactly the paths at the positions the service named for it when asked with stored inputs that include all the derivation names, and if builds, fetches, sources and references are at hand the only error is a needle out of range; what is stored anew has its references stored and was fetched or built, and a closed store stays closed; a needle out of range, which is in the answer to the last build, leaves the store closed iff no output stored before it refers to an output that is not stored |
| BuildState.State.HarmlessIff | snix/build-glue/src/build_state.rs:229-288 | of all paths a broken build was told about only its own later outputs can be missing from what it stored |
| BuildState.BrokenStore | snix/build-glue/src/build_state.rs:246-258 | asked for the first of two outputs, where the build service says that it refers to the second and names a needle out of range for that one, the call fails and leaves a reference to a path that is not stored |
| StructuredAttrs.WriteQuoted | snix/nix-compat/src/structured_attrs.rs:14-28 | the loop writes the quoted string |
| StructuredAttrs.QuotedReads | snix/nix-compat/src/structured_attrs.rs:14-28 | the shell reads a quoted string back as the string, for all strings |
| StructuredAttrs.SimpleReads | snix/nix-compat/src/structured_attrs.rs:52-90 | whatever is written for a scalar is read as its text, floats as cast |
| StructuredAttrs.ArrayReads | snix/nix-compat/src/structured_attrs.rs:123-134 | an array is read as its elements, `false` contributing none |
| StructuredAttrs.ObjectReads | snix/nix-compat/src/structured_attrs.rs:135-160 | an object is read as its entries, keys with quotes included, iff it has no empty key, and otherwise refused |
| StructuredAttrs.LineReads | snix/nix-compat/src/structured_attrs.rs:102-160 | a declaration is read as name and value and what follows it is read on its own; one of an object with an empty key is refused |
| StructuredAttrs.ScriptReads | snix/nix-compat/src/structured_attrs.rs:94-164 | the script is read as exactly the valid-named, representable entries in order, floats as cast, iff no object among them has an empty key |
| StructuredAttrs.CheckArray | snix/nix-compat/src/structured_attrs.rs:123-127 | an array passes iff all elements are good scalars, and panics iff a nested element comes before any bad number |
| StructuredAttrs.CheckObject | snix/nix-compat/src/structured_attrs.rs:135-145 | an object is skipped iff some value is nested or a bad number |
| StructuredAttrs.WriteEntry | snix/nix-compat/src/structured_attrs.rs:102-160 | one iteration appends the declaration, nothing, or panics |
| StructuredAttrs.WriteAttrs | snix/nix-compat/src/structured_attrs.rs:94-164 | it panics iff an entry makes it; otherwise what is written is refused iff a declared object has an empty key, and read back as the valid-named, representable entries, with the values they have and numbers by their numerals, iff there is no such object and every whole float among them is at least -2^63 and below 2^63 |
| StructuredAttrs.ValuesKept | snix/nix-compat/src/structured_attrs.rs:64-78 | the values declared are those of the entries iff all whole floats of declared entries fit a signed 64-bit integer |
| StructuredAttrs.LargeFloatsLost | snix/nix-compat/src/structured_attrs.rs:70-72 | 1e19 and 2e19 are both declared as 9223372036854775807 |
| StructuredAttrs.EmptyKeyRefused | snix/nix-compat/src/structured_attrs.rs:147-158 | an object with an empty key is written as a declaration that is refused |
| StructuredAttrs.NestedArrayPanics | snix/nix-compat/src/structured_attrs.rs:123-127 | an array in an array makes it panic |
| StructuredAttrs.SignedIs | snix/nix-compat/src/structured_attrs.rs:64-78 | the text of an integer is its decimal numeral without leading zeros, and no other text is |
| StructuredAttrs.ValidNameIs | snix/nix-compat/src/structured_attrs.rs:5-12 | names are valid iff they have only ASCII letters, digits and underscores and begin with no digit |
| StructuredAttrs.GoodIs | snix/nix-compat/src/structured_attrs.rs:32-50 | a scalar is good unless it is a number that is no integer |
| StructuredAttrs.SaturatedIs | snix/nix-compat/src/structured_attrs.rs:70-72 | the cast of a number lies in the signed 64-bit range, between the number and anything in the range |
| StructuredAttrs.LineLayout | snix/nix-compat/src/structured_attrs.rs:109-160 | what a declaration of each kind looks like, to the letter |
| StructuredAttrs.ScriptIs | snix/nix-compat/src/structured_attrs.rs:94-164 | the declarations meant by the attributes, numbers by their numerals, are unique |
| StructuredAttrs.SignedInjective | snix/nix-compat/src/structured_attrs.rs:64-78 | different integers have different texts |
| SerdeBridge.SucceedsIff | snix/serde/src/ser.rs:26-383 | serialising fails exactly on bytes, integers above the signed 64-bit range and keys that are not strings, wherever they occur |
| SerdeBridge.TextIff | snix/serde/src/ser.rs:305-312 | a key is accepted iff it serialises to a string |
| SerdeBridge.NullIff | snix/serde/src/ser.rs:99-134 | exactly units, absent options and wrappers of these serialise to null |
| SerdeBridge.Serialize | snix/serde/src/ser.rs:26-220 | the serialiser computes the value form |
| SerdeBridge.SerializeElements | snix/serde/src/ser.rs:222-298 | items are collected in order, stopping at the first failure |
| SerdeBridge.SerializeFields | snix/serde/src/ser.rs:345-383 | fields are collected by name |
| SerdeBridge.SerializeEntries | snix/serde/src/ser.rs:300-343 | in whatever order entries come, the attributes are the same, because keys never merge |
| SerdeBridge.FromStringInjective | snix/serde/src/de.rs:342-364 | different attribute names give different keys |
| SerdeBridge.KeyRoundTrip | snix/serde/src/de.rs:342-364 | a key is read back from the string it is written as |
| SerdeBridge.MapRoundTrip | snix/serde/src/de.rs:342-364 | a map comes back iff all its values do |
| SerdeBridge.StructRoundTrip | snix/serde/src/de.rs:366-376 | a struct comes back iff all its fields do |
| SerdeBridge.EnumRoundTrip | snix/serde/src/de.rs:380-481 | a variant with content is recognised by its single attribute |
| SerdeBridge.ReadsIff | snix/serde/src/de.rs:81-481 | a Nix value is accepted for a type, and read as a value, exactly as said constructor by constructor of that value: an integer in range, a list of the length of the tuple, one attribute naming the variant, a field missing only if it is optional |
| SerdeBridge.ReadsTyped | snix/serde/src/de.rs:81-481 | whatever is accepted for a type is read as a value of that type |
| SerdeBridge.StringFormOf | snix/serde/src/de.rs:342-364 | a key read from a name is written as that name |
| SerdeBridge.RoundTrip | snix/serde/src/de.rs:266-277 | a value that can be written comes back as it was iff no option in it is present around a null |
| SerdeBridge.SafeRoundTrip | snix/serde/src/de.rs:81-481 | values of types without options around nullable types always come back |
| SerdeBridge.LossyValue | snix/serde/src/de.rs:266-277 | any other type with inhabited components has a value that can be written and does not come back |
| SerdeBridge.SafeIff | snix/serde/src/de.rs:81-481 | for types with inhabited components all serialisable values come back iff no option wraps a nullable type |
| SerdeBridge.PresentUnitLost | snix/serde/src/de.rs:266-277 | a present unit is read as absent |

## Left out

- Composition: the type registry, configuration parsing, URLs and anonymous stores; references are names or malformed, as without the `xp-composition-url-refs` feature.
- Composition.TangleDeadlocks: its schedule may suspend a builder before any of its requests; which given builds deadlock if every builder asks for its references first is not characterised beyond `DepthFirstBuilds.StuckBuildsWait`, since it depends on which store each build comes to first; for some choice of builds it is.
- Composition.DeadlockIffTangle: exact over the same schedules.
- Composition: a builder is a list of references resolved concurrently and then success or failure; the one builder that drops pending siblings on the first failure (snix/castore/src/directoryservice/combinators/priority.rs, by `try_join_all`), futures dropped by callers and panics are not modelled.
- SequentialBuild.Stores.Build: a builder runs to its end at once; one that suspends after its requests is in `DepthFirstBuilds`.
- ReferenceReader.Scanner.Scan: the multi-pattern search is modelled by what it reports, of several needles at one place the first; how it skips is not modelled.
- ReferenceReader.ReadToEnd: needles of different lengths that are marked for every chunking without a clear occurrence are not characterised; wake-ups are a list of poll answers; errors of the inner reader are not modelled.
- Nixbase32: overflow of the length computations in machine words is not modelled.
- HashScanner: vector instructions are modelled by their per-byte meaning; needles are given as a set.
- Weave.Trace: row hashes are distinct; hash tables are searched as lists, parallel loops run in one order, and writing the sorted output file is not modelled.
- BytecodeChunk: constants, printing, the header width of an empty chunk and the packing of upvalue positions; the variable-length number format is a prefix code of one to nine bytes whose decoding ignores what follows.
- Turbofetch.ParseResponse: the parser is given by its contract: for any stream it waits until the byte that completes or spoils a header block, and then says so whatever follows.
- Turbofetch: memory mapping is the identification of addresses modulo the capacity.
- NarExport.ExportTree: directories are values, so a lookup returns a fresh one each time; all directories are valid and nest finitely; file contents, writer errors and the rendering of paths as text are not modelled.
- KnownPaths.Table.AddDerivation: a derivation path always denotes the same derivation; how paths and hashes are computed from a derivation is not modelled.
- KnownPaths: the listing of all derivations.
- BuildState.State.StorePathToPathInfo: the outputs named by inputs exist, sources are not outputs of known derivations, and a finished build has an entry for every output (if not, `PutAll` says what is stored, and the derivation is handed over again when a missing output is asked for); what an endless recursion stores on its way, descending into sub-paths and failures of the path info service are not modelled.
- StructuredAttrs: JSON integers beyond 64 bits, the file of JSON attributes, and null characters, which no shell variable can hold; the reader covers the quoting and declaration forms that occur, not expansion, nor variables the shell does not let a script set; a script with a refused declaration counts as refused.
- SerdeBridge: integers have at most 64 bits; floats are real numbers; thunks, paths and functions on the Nix side, rendering to source text, borrowed data and the details of error values are not modelled.
- The evaluator's virtual machine, the stores and services behind traits, network protocols, the daemon and the command line tools.
