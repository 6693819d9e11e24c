# FireWeave SDK: a verified model

This project models the parts of the FireWeave SDKs whose correctness is an argument about
all texts, all object graphs or all interleavings, and proves that argument in Dafny.
`dafny verify dfyconfig.toml` checks the whole project.

**Secret redaction** (Rust). Four left-to-right passes mask bearer tokens, URL userinfo,
assignments to key variables and key-shaped values; then whitespace is collapsed.
`Redaction` says what a match is, `RedactionRegex` gives the ordered backtracking meaning of the
regular expressions stated in the source, `RedactionScanner` is the hand-written scanner with its
loops. `RedactionNeedles`, `RedactionMasks` and `RedactionTwice` follow what each pass leaves behind
through the later passes and the collapse (`RedactionWords`). `RedactionFusion` and `RedactionReading` fuse the four
passes into one reading of the input; on it `RedactionLeftovers`, `RedactionWideValues` and `RedactionHiddenUrls` say
exactly which inputs keep a bearer token, an assignment or URL userinfo, `RedactionLimits` exactly when one application
is enough, `RedactionSettles` that two always are; `RedactionFamilies` and `RedactionLimits` exhibit inputs that need both.

**Contexts** (Go, Node). `ContextGraph` models attributes as a finite graph of maps and lists, the
cycle test with its backtracking set, and the tree a copy denotes. `ContextCopy` and `ContextJson`
are the two copies as they run, allocating containers in memory; `ContextTrees` is what can be relied
on afterwards, `ContextMerge` the layering, `GoEvaluate` the read path that depends on it.

**Lifecycles and starts.** `GoRuntime` is the runtime whose Initialize holds one mutex and releases
another; `GoSingleton` and `GoSingletonRuns` the Go start singleton with reads split where the lock is
released; `SwiftStart`, `SwiftLocking` and `SwiftIdentity` the Swift start core, its gate and its
operation chain; `RustStart`, `RustRuns`, `RustForwarder` and `KeyRenaming` the Rust singleton, its runs, the permanent
client that forwards to it, and the independence of everything visible from the key. Each class has one
method per critical section, proved to compute a step function; run properties are proved of the step
functions over every sequence of steps.

**Signatures, hashes, endpoints.** `CanonicalText` and `CanonicalJson` prove the printers injective,
`Signatures` which equality of starts each of three SDKs decides, `Fnv` that the word and big-integer
loops agree, `RustResolve` and `RustHosts` that what the start profile resolves the core accepts.

Where code and documentation differ, the model follows the code:

- The comment on the Go runtime (sdks/go/application/runtime.go:47-51) promises AlreadyClosed for every
  read after Shutdown. An Initialize between its two critical sections overwrites the state
  (`GoRuntime.ShutdownAbsorbingIff`, `GoRuntime.CrossedShutdownClosesTwice`).
- The redactor's test of idempotence (sdks/rust/src/domain/errors.rs:508-516) does not extend to all text
  (`RedactionLimits.AssignmentInUrlNotIdempotent`); `RedactionLimits.RedactIdempotentIff` says for which inputs it holds.
- Whitespace outside ASCII is not what the passes look for but is collapsed to a space afterwards
  (`RedactionLimits.WideSpaceKeepsBearer`); `RedactionLeftovers.BearerLeftIff` and
  `RedactionWideValues.AssignmentLeftIff` say which inputs keep a bearer token or an assignment because of it.
- Node compares instance ids as given (sdks/node/src/start/state.ts:264), Rust and Go trimmed
  (sdks/rust/src/start/state.rs:96, sdks/go/fw/state.go:89); `Signatures.NodeFinerThanRust` says when that matters,
  `Signatures.PaddedIdApart` gives two such starts.

## Model

| member | source | states |
|---|---|---|
| `RedactionRegex.FindIsFirstMatch` | sdks/rust/src/domain/errors.rs:238-254 | at every position, what a pass finds is the first match of its regular expression under ordered, greedy, backtracking matching, with the same split into kept head and secret |
| `RedactionRegex.PassIsReplaceAll` | sdks/rust/src/domain/errors.rs:309-329 | each of the four passes equals leftmost, non-overlapping, greedy replace-all of the regular expression written above it, on every text |
| `RedactionRegex.ManyEnds` | sdks/rust/src/domain/errors.rs:246-249 | a greedy run can end at every length from longest to none, in that order |
| `RedactionRegex.WordEndsFirst` | sdks/rust/src/domain/errors.rs:260-276 | of the names and of the prefixes at most one matches at a position, because none is a prefix of another |
| `RedactionScanner.ConsumeWhile` | sdks/rust/src/domain/errors.rs:294-305 | the loop returns the length of the longest prefix in the class |
| `RedactionScanner.Scan` | sdks/rust/src/domain/errors.rs:309-329 | the scanning loop computes the replace-all of its regular expression, for all four matchers |
| `RedactionScanner.MatchBearer` | sdks/rust/src/domain/errors.rs:332-347 | the matcher answers exactly the match at the start of the rest, or nothing |
| `RedactionScanner.MatchUrlUserinfo` | sdks/rust/src/domain/errors.rs:352-376 | the two backward loops accept exactly when the copied text ends in scheme characters back to a letter, and consume the separator, the userinfo and the at sign |
| `RedactionScanner.MatchAssignment` | sdks/rust/src/domain/errors.rs:381-401 | the matcher answers exactly the assignment at the start of the rest, including optional spaces and one optional quote |
| `RedactionScanner.MatchKeyValue` | sdks/rust/src/domain/errors.rs:404-411 | the matcher answers exactly the key value at the start of the rest |
| `RedactionScanner.SchemeEndsAt` | sdks/rust/src/domain/errors.rs:357-370 | the run of scheme characters read backwards contains a letter exactly when a scheme ends there |
| `RedactionScanner.AnchoredIsReplace` | sdks/rust/src/domain/errors.rs:349-376 | anchored at the separator and reading the scheme backwards, pass 2 makes the same replacements as the forward leftmost search |
| `RedactionScanner.CollapseAndTrimWhitespace` | sdks/rust/src/domain/errors.rs:416-433 | the pending-space loop turns every whitespace run into one space and trims both ends |
| `RedactionWords.CollapseJoinsWords` | sdks/rust/src/domain/errors.rs:413-433 | collapsing keeps exactly the words of the text, with one space between two of them |
| `RedactionScanner.RedactSecrets` | sdks/rust/src/domain/errors.rs:443-449 | the four scans and the collapse compute `Redact` |
| `RedactionMasks.KeyPass` | sdks/rust/src/domain/errors.rs:404-411 | after pass 4 no value prefix is followed by a key character, anywhere |
| `RedactionMasks.BearerPass` | sdks/rust/src/domain/errors.rs:332-347 | after pass 1 no `Bearer`, whitespace, token sequence is left |
| `RedactionMasks.AssignmentPass` | sdks/rust/src/domain/errors.rs:381-401 | after pass 3 every assignment, wherever it starts, has exactly the placeholder as its value |
| `RedactionMasks.UrlPass` | sdks/rust/src/domain/errors.rs:352-376 | after pass 2 every userinfo, wherever its scheme starts, is exactly the placeholder |
| `RedactionMasks.KeyPassKeepsAssignments` | sdks/rust/src/domain/errors.rs:443-449 | pass 4 keeps assignments masked: it makes no new name and touches no placeholder |
| `RedactionMasks.UrlPassKeepsAssignments` | sdks/rust/src/domain/errors.rs:443-449 | pass 2 keeps assignments masked |
| `RedactionMasks.MaskedIsFixed` | sdks/rust/src/domain/errors.rs:309-329 | a text whose every match is masked already is a fixed point of the pass |
| `RedactionNeedles.MaskingAddsNoNeedle` | sdks/rust/src/domain/errors.rs:309-329 | writing placeholders over parts of a text creates no bearer token, key token, separator or name that was not there |
| `RedactionNeedles.PassAddsNoNeedle` | sdks/rust/src/domain/errors.rs:309-329 | no pass creates one |
| `RedactionNeedles.SqueezeAddsNoNeedle` | sdks/rust/src/domain/errors.rs:416-433 | the whitespace collapse creates none of those that hold no whitespace: key tokens, separators, names |
| `RedactionTwice.NoKeyValueLeft` | sdks/rust/src/domain/errors.rs:443-449 | for all text, redacted output has no value prefix followed by a key character |
| `RedactionTwice.NoWideBearerLeft` | sdks/rust/src/domain/errors.rs:332-347 | text without `Bearer`, whitespace of any kind and a token character keeps no bearer token |
| `RedactionTwice.NoBearerLeft` | sdks/rust/src/domain/errors.rs:443-449 | so text whose whitespace is ASCII never keeps one |
| `RedactionTwice.AssignmentsLeftMasked` | sdks/rust/src/domain/errors.rs:443-449 | for text whose whitespace is ASCII, every assignment in the output has exactly the placeholder as its value, despite pass 4 and the collapse |
| `RedactionTwice.PassIdempotent` | sdks/rust/src/domain/errors.rs:309-329 | each pass is idempotent on all text |
| `RedactionTwice.RedactTwice` | sdks/rust/src/domain/errors.rs:443-449 | on text whose whitespace is ASCII, redacting twice is redacting once and running the URL pass alone |
| `RedactionTwice.RedactIdempotent` | sdks/rust/src/domain/errors.rs:508-516 | one application is final on text with ASCII whitespace that lacks either the URL separator or every assignment name |
| `RedactionFusion.TwoPasses` | sdks/rust/src/domain/errors.rs:444-445 | passes 1 and 2 are one left-to-right reading of the text |
| `RedactionFusion.ThreePasses` | sdks/rust/src/domain/errors.rs:444-446 | so are passes 1 to 3: what an assignment value takes along of masked URLs and bearer tokens is read off the text itself, also where a name ends in the scheme of a URL |
| `RedactionReading.MaskAllFused` | sdks/rust/src/domain/errors.rs:444-447 | all four passes, each over the text of the one before, are one left-to-right reading of the input |
| `RedactionSpaces.MaskedAfterCollapse` | sdks/rust/src/domain/errors.rs:416-433 | the collapse neither masks nor hides: unmasked assignments and userinfo in the output are those of the masked text read with spaces for all whitespace |
| `RedactionLeftovers.BearerLeftIff` | sdks/rust/src/domain/errors.rs:332-347 | for all text, exactly which inputs keep a bearer token: those with `Bearer`, whitespace not all ASCII and a token character at a place that no pass rewrites and no key value covers |
| `RedactionWideValues.AssignmentLeftIff` | sdks/rust/src/domain/errors.rs:381-401 | for all text, exactly which inputs keep an assignment unmasked: those with whitespace outside ASCII around the marker at such a place, unless the value is the placeholder or one whole key value |
| `RedactionHiddenUrls.ReachesIff` | sdks/rust/src/domain/errors.rs:352-376 | at any place of any text, the userinfo run after masking ends at an at sign exactly when userinfo characters and whole assignments lead there in the input |
| `RedactionHiddenUrls.UserinfoLeftIff` | sdks/rust/src/domain/errors.rs:352-376 | for all text, exactly which inputs keep URL userinfo unmasked: those where such a run starts behind a scheme at a place that no pass rewrites |
| `RedactionLimits.RedactIdempotentIff` | sdks/rust/src/domain/errors.rs:508-516 | for all text, one application is final exactly when the input leaves none of the three behind |
| `RedactionSettles.RedactSettles` | sdks/rust/src/domain/errors.rs:443-449 | for all text, a third application never changes anything |
| `RedactionFamilies.WideTokenSurvives` | sdks/rust/src/domain/errors.rs:280-284 | every `Bearer`, gap not all ASCII, token not read as a key value keeps its token, and one application is not final |
| `RedactionFamilies.WideValueSurvives` | sdks/rust/src/domain/errors.rs:280-284 | every name, such a gap, marker and value that is neither the placeholder nor a key value keeps its value, and one application is not final |
| `RedactionFamilies.HiddenUserinfoSurvives` | sdks/rust/src/domain/errors.rs:508-516 | every scheme, `://`, name, `=`, value that starts with `/`, `?` or `#` and holds neither `:` nor `B`, comma, at sign keeps its userinfo, and one application is not final |
| `RedactionLimits.AssignmentInUrlNotIdempotent` | sdks/rust/src/domain/errors.rs:508-516 | a concrete text on which a second application changes the output: pass 3 removed the slash that hid the userinfo from pass 2 |
| `RedactionLimits.WideSpaceKeepsBearer` | sdks/rust/src/domain/errors.rs:280-284 | a concrete text with a no-break space whose bearer token survives redaction |
| `ContextGraph.FlagIffCycleReachable` | sdks/go/domain/context.go:115-151 | on every finite graph the copy reports a cycle exactly when some container reachable from the root reaches itself; containers shared by siblings are never reported |
| `ContextGraph.FlagFollowsWalk` | sdks/go/domain/context.go:125-151 | following a walk that comes back, the path set meets the repeated container |
| `ContextGraph.FlagFindsLasso` | sdks/go/domain/context.go:125-151 | a report always exhibits a walk that comes back |
| `ContextGraph.UnfoldCutsBackEdges` | sdks/go/domain/context.go:115-189 | along every access path the copy has the paths of the input up to the first return to a container, which is nil; everything else shows the same keys, length or scalar |
| `ContextGraph.UnflaggedUncut` | sdks/go/domain/context.go:115-124 | without a report nothing is cut |
| `ContextGraph.DepthBounded` | sdks/go/domain/validation.go:209-213 | a copy is never deeper than the number of containers it was made from, plus one |
| `ContextCopy.CopyMap` | sdks/go/domain/context.go:125-151 | computes the flag and a copy of the cut unfolding in containers of its own, leaves memory that existed alone, and gives the path set back unchanged; terminates |
| `ContextCopy.CopyValue` | sdks/go/domain/context.go:153-189 | the same for any value; nil maps become nil, nil slices an empty list |
| `ContextTrees.CopyIsFresh` | sdks/go/domain/context.go:115-124 | no walk into a copy reaches a container of the input, and none comes back |
| `ContextTrees.CopyOfCopy` | sdks/go/domain/context.go:60-63 | a copy is never reported, and copying it again gives the same tree |
| `ContextTrees.DepthOf` | sdks/go/domain/validation.go:209-235 | without a guard of its own the depth recursion terminates on a copy and returns its depth |
| `ContextJson.JsonFlag` | sdks/node/src/domain/validation.ts:181-213 | reading values as JSON does changes no verdict |
| `ContextJson.JsonUnfold` | sdks/node/src/domain/validation.ts:181-213 | the tree of the JavaScript copy is the JSON reading of the tree of the Go copy |
| `ContextJson.CloneJson` | sdks/node/src/domain/validation.ts:181-213 | the walk with its early exit: nothing exactly on a cycle, else a fresh copy and the path set restored |
| `ContextJson.CloneObject` | sdks/node/src/domain/validation.ts:201-211 | objects: undefined entries are dropped, the first cycle ends the walk |
| `ContextJson.CloneArray` | sdks/node/src/domain/validation.ts:187-197 | arrays: undefined items read as null, the first cycle ends the walk |
| `ContextJson.DeepCopyJson` | sdks/node/src/domain/validation.ts:165-213 | the early exit gives the same verdict as the complete walk of the Go copy |
| `ContextMerge.MergeContexts` | sdks/go/domain/context.go:191-211 | the loop builds a fresh container that stands for the merge of all layers, with its targeting key and cycle flag |
| `ContextMerge.MergeAssociative` | sdks/go/domain/context.go:191-211 | any bracketing of a merge gives the same context |
| `ContextMerge.MergeAppend` | sdks/go/domain/context.go:191-211 | merging a concatenation is merging the merges |
| `ContextMerge.LastLayerWins` | sdks/go/domain/context.go:191-211 | the last layer that has an attribute decides it |
| `ContextMerge.EntryFromLayer` | sdks/go/domain/context.go:191-211 | no attribute appears that no layer has |
| `ContextMerge.LastTargetingKeyWins` | sdks/go/domain/context.go:201-203 | the last layer that sets a targeting key decides it; none is invented |
| `ContextMerge.AnyLayerCyclic` | sdks/go/domain/context.go:191-211 | the cycle flag is the or over the layers |
| `GoEvaluate.AskedIffAllPass` | sdks/go/application/runtime.go:134-181 | the adapter is asked exactly when key, default, context and lifecycle all pass, whatever it would answer; a read that does not ask it is the default with ERROR, the same for every adapter; any decision with an error, the adapter's own included, has reason ERROR and an error kind in its metadata |
| `GoEvaluate.CycleNeverReachesAdapter` | sdks/go/application/runtime.go:140-166 | a cycle reachable in either layer, even in an overridden attribute, gives the default with ERROR and no adapter call |
| `GoEvaluate.AdapterSeesMerge` | sdks/go/application/runtime.go:168-181 | when asked, the adapter sees the two layers merged, neither of them cyclic |
| `GoRuntime.Runtime.constructor` | sdks/go/application/runtime.go:65-73 | a runtime starts uninitialized |
| `GoRuntime.Runtime.EnterInitialize` | sdks/go/application/runtime.go:96-114 | first critical section: go on to the adapter or return at once |
| `GoRuntime.Runtime.LeaveInitialize` | sdks/go/application/runtime.go:118-131 | second critical section: the state is overwritten with the adapter's outcome, whatever it is by now |
| `GoRuntime.Runtime.MarkStale` | sdks/go/application/runtime.go:204-210 | only READY becomes STALE |
| `GoRuntime.Runtime.LockShutdown` | sdks/go/application/runtime.go:214-221 | exactly the call that finds another state than SHUTDOWN closes the adapter |
| `GoRuntime.StepKeepsInv` | sdks/go/application/runtime.go:96-132 | every critical section, in any interleaving, keeps the lifecycle invariant |
| `GoRuntime.InitializedOnce` | sdks/go/application/runtime.go:93-95 | in every run the adapter is initialized successfully at most once |
| `GoRuntime.NeverCalledAgain` | sdks/go/application/runtime.go:100-132 | after a success or a Configuration failure no continuation calls the adapter's Initialize again |
| `GoRuntime.ShutdownAbsorbingIff` | sdks/go/application/runtime.go:212-227 | SHUTDOWN stays in every continuation exactly when no Initialize is between its two sections as Shutdown locks |
| `GoRuntime.CleanShutdown` | sdks/go/application/runtime.go:47-51 | after such a shutdown the adapter is closed once more in every continuation, and every read that passes its other checks is AlreadyClosed |
| `GoRuntime.ClosedOnce` | sdks/go/application/runtime.go:212-227 | a run all of whose shutdowns are of that kind closes the adapter once if it shuts down, never otherwise |
| `GoRuntime.CrossedShutdownClosesTwice` | sdks/go/application/runtime.go:96-132 | a concrete run crossed by an Initialize in which the runtime is READY again and its adapter is closed twice |
| `GoSingleton.Singleton.Start` | sdks/go/fw/state.go:249-319 | a start changes the fields, logs and fails as specified, in every branch |
| `GoSingleton.Singleton.FreshRunLocked` | sdks/go/fw/state.go:197-209 | a fresh run forgets the start but not the warnings, sink, instance key or failure kinds |
| `GoSingleton.Singleton.WarnOnceLocked` | sdks/go/fw/state.go:172-178 | a line is logged unless it was |
| `GoSingleton.Singleton.AcquireLocked` | sdks/go/fw/state.go:359-390 | a read starts implicitly if nothing was tried, then gets the client or the error of the state |
| `GoSingleton.Singleton.ObserveRemote` | sdks/go/fw/state.go:452-478 | a failure counts only for the running remote client, and logs one line per kind |
| `GoSingleton.Singleton.ShutdownLocked` | sdks/go/fw/state.go:492-508 | shutdown takes the client out |
| `GoSingleton.Singleton.InstanceKey` | sdks/go/fw/fw.go:105-117 | the key is derived once and then handed out unchanged |
| `GoSingleton.Differs` | sdks/go/fw/state.go:102-116 | no field differs exactly when the signatures are equal |
| `GoSingletonRuns.EveryRun` | sdks/go/fw/state.go:128-151 | in every run: Ready iff a client is installed; the last error kind came from a failed call on this run's client; no warning text and no failure kind is logged twice; all instance keys are the same and the one the running start asked for |
| `GoSingletonRuns.StepKeepsInv` | sdks/go/fw/state.go:249-508 | each critical section keeps the invariant behind it, with reads split into acquire, evaluate and observe |
| `GoSingletonRuns.RunningStartStands` | sdks/go/fw/state.go:255-283 | in every run a Start while Ready leaves fields, log and history as they are, and succeeds exactly when it resolves to the signature of the running start |
| `GoSingletonRuns.AcquireOutcome` | sdks/go/fw/state.go:370-390 | a read gets a client exactly when the singleton is Ready, else the start error or AlreadyClosed |
| `GoSingletonRuns.OneImplicitStart` | sdks/go/fw/state.go:359-364 | between two explicit Starts, failed ones included, at most one implicit start happens |
| `GoSingletonRuns.OnlyStartRevives` | sdks/go/fw/state.go:359-390 | without an explicit Start, a failed singleton keeps its error until shut down and a shut-down one stays so |
| `GoSingletonRuns.KeyNeverChanges` | sdks/go/fw/fw.go:105-117 | an instance key once handed out never changes, across failed and restarted runs |
| `SwiftStart.StartCore.BeginLocked` | sdks/swift/Sources/FireweaveStart/StartCore.swift:163-266 | a start that resolved keeps a running one, refuses a conflicting server instance id, or begins the next generation |
| `SwiftStart.StartCore.RejectLocked` | sdks/swift/Sources/FireweaveStart/StartCore.swift:138-161 | an unresolved app start leaves a running one alone, else becomes the failed phase without a run |
| `SwiftStart.StartCore.InstallLocked` | sdks/swift/Sources/FireweaveStart/StartCore.swift:287-303 | a client is installed only in the running run of its own generation |
| `SwiftStart.StartCore.FailLocked` | sdks/swift/Sources/FireweaveStart/StartCore.swift:305-318 | a failed boot ends only its own run |
| `SwiftStart.StartCore.ShutdownLocked` | sdks/swift/Sources/FireweaveStart/StartCore.swift:663-685 | shutdown takes client and refresher out of the run and hands the client over |
| `SwiftStart.StartCore.InstanceKey` | sdks/swift/Sources/FireweaveStart/StartCore.swift:595-608 | the key is the running app run's subject, else the one handed out so far, else the one derived now, which is remembered |
| `SwiftStart.EveryClientInOnePlace` | sdks/swift/Sources/FireweaveStart/StartCore.swift:271-320 | in every run each client built is held by its boot, or installed, or handed to exactly one shutdown, and no phase but running holds a client or refresher |
| `SwiftStart.OnlyCurrentBootInstalls` | sdks/swift/Sources/FireweaveStart/StartCore.swift:293-303 | in every run, the event that installs a client is the end of the current generation's boot, and the client is the one that boot built |
| `SwiftStart.OvertakenNeverInstalls` | sdks/swift/Sources/FireweaveStart/StartCore.swift:268-303 | in every continuation, a boot overtaken by a shutdown or newer start stays overtaken, and ending it hands the client it built to a shutdown and installs nothing |
| `SwiftStart.NothingLeaks` | sdks/swift/Sources/FireweaveStart/StartCore.swift:663-685 | with nothing running and every boot over, every client built has been handed to exactly one shutdown |
| `SwiftStart.StepKeepsInv` | sdks/swift/Sources/FireweaveStart/StartCore.swift:138-320 | start, rejection, boot and shutdown keep the account of clients in any interleaving |
| `SwiftStart.InstanceKeyNeverChanges` | sdks/swift/Sources/FireweaveStart/StartCore.swift:192-209 | once chosen by a server start or a caller, the instance key is the same in every continuation |
| `SwiftStart.OneInstanceKey` | sdks/swift/Sources/FireweaveStart/StartCore.swift:595-608 | in every run all instance keys given out while no app run is running are the same one |
| `SwiftLocking.OneShotGate.OpenLocked` | sdks/swift/Sources/FireweaveStart/Locking.swift:60-75 | opening releases the waiters once |
| `SwiftLocking.OneShotGate.WaitLocked` | sdks/swift/Sources/FireweaveStart/Locking.swift:77-89 | a wait is resumed at once if open, else queued |
| `SwiftLocking.EveryWaiterOnce` | sdks/swift/Sources/FireweaveStart/Locking.swift:52-90 | in every run nobody is resumed before the gate opens, nobody twice, and once open with nothing due everybody has been |
| `SwiftIdentity.OperationChain.Enqueue` | sdks/swift/Sources/FireweaveStart/Locking.swift:33-49 | an operation is given the tail to wait for and becomes the tail |
| `SwiftIdentity.OneAtATime` | sdks/swift/Sources/FireweaveStart/Locking.swift:21-49 | in every process, over all its runs, while an operation is under way earlier ones are over and later ones have not begun |
| `SwiftIdentity.ChainNeverStuck` | sdks/swift/Sources/FireweaveStart/Locking.swift:21-49 | every process can be continued until all operations are over, in at most five steps each and the boot of the running run, without a new operation or run |
| `SwiftIdentity.LastIdentityWins` | sdks/swift/Sources/FireweaveStart/StartCore.swift:446-561 | in every process, once the chain drains, subject and key of the running run are those of the operations that acted on it, in order, left-overs from earlier runs among them; every operation enqueued since an app run began acted on it, so the last one decides its key |
| `SwiftIdentity.RunStep` | sdks/swift/Sources/FireweaveStart/StartCore.swift:709-750 | each step of the chain, of a boot, of a beginning or ending run keeps the running run's fields equal to the operations that acted on its generation, applied in order |
| `CanonicalText.HexInjective` | sdks/go/fw/control_points.go:69-75 | fixed-width hexadecimal loses nothing |
| `CanonicalText.JsonIsCode` | sdks/node/src/application/runtime.ts:97-102 | the escapes of JSON strings (section 7 of RFC 8259) are a prefix code that never looks like a closing quote |
| `CanonicalText.GoIsCode` | sdks/go/fw/control_points.go:69-75 | so are the escapes of Go-quoted strings, whatever counts as printable |
| `CanonicalText.QuotedPrefixFree` | sdks/node/src/application/runtime.ts:97-102 | a quoted text in front of anything determines the text and what follows |
| `CanonicalJson.SortedInOrder` | sdks/node/src/application/runtime.ts:100-101 | keys are printed in the order asked for: of UTF-16 code units in Node, of characters in Go |
| `CanonicalJson.UnitsOrder` | sdks/node/src/application/runtime.ts:100-101 | comparing characters by rank, those above U+FFFF before U+E000 to U+FFFF, is comparing the texts UTF-16 unit by unit |
| `CanonicalJson.PrintPrefixFree` | sdks/node/src/application/runtime.ts:96-102 | a print in front of anything that may follow it determines the value and what follows |
| `CanonicalJson.PrintInjective` | sdks/node/src/application/runtime.ts:96-102 | two finite values print alike exactly when they are equal up to key order |
| `Signatures.ControlPointsSignature` | sdks/go/fw/control_points.go:69-75 | the loop computes the rendering of the points |
| `Signatures.PointsTextInjective` | sdks/go/fw/control_points.go:67-75 | the rendering determines keys and values |
| `Signatures.NodeDecidesStructure` | sdks/node/src/start/state.ts:148-158 | Node's one printed string keeps two starts together exactly when Rust's comparison does and the ids are the same as given |
| `Signatures.NodeFinerThanRust` | sdks/node/src/start/state.ts:264-264 | Node and Rust disagree about two starts exactly when these differ in nothing but what trimming takes off the instance id |
| `Signatures.PaddedIdApart` | sdks/rust/src/start/state.rs:82-87 | a padded id, and an empty one, are such starts whatever else was resolved |
| `Signatures.GoDecidesStructure` | sdks/go/fw/state.go:75-100 | Go's record of strings decides exactly Rust's comparison, with its key digest taken as collision-free |
| `Signatures.ResolvedShape` | sdks/rust/src/start/resolve.rs:218-232 | every decision of `resolve` has the shape that comparison relies on |
| `Fnv.AndMask` | sdks/node/src/start/instance.ts:20-28 | masking with 64 one-bits is the remainder modulo 2^64 |
| `Fnv.PaddedIsFixed` | sdks/node/src/start/instance.ts:27-27 | padding the shortest digits gives exactly the fixed sixteen |
| `Fnv.Fnv1a64Words` | sdks/rust/src/start/instance.rs:27-34 | the wrapping loop computes the hash and renders sixteen hexadecimal digits |
| `Fnv.Fnv1a64BigInt` | sdks/node/src/start/instance.ts:20-28 | the masked big-integer loop computes the same text on every input |
| `Fnv.StepInjective` | sdks/rust/src/start/instance.rs:29-32 | a step is one-to-one in the hash and in the byte |
| `Fnv.OneByteApart` | sdks/rust/src/start/instance.rs:27-34 | texts that differ in exactly one byte reach different hashes from any start |
| `Fnv.HashesApart` | sdks/rust/src/start/instance.rs:24-34 | and different renderings |
| `RustResolve.PickLoop` | sdks/rust/src/start/resolve.rs:75-112 | the loops return the first set option, name or legacy name, and warn for a legacy one |
| `RustHosts.ParsersAgree` | sdks/rust/src/start/resolve.rs:143-172 | the two URL parsers are modelled over one reading of host and port, so this says only where they part: the resolver's refuses exactly the URLs that are not strict |
| `RustHosts.HostHasNoDelimiters` | sdks/rust/src/infrastructure/hosts.rs:41-61 | userinfo, path, query and fragment never reach the host |
| `RustHosts.AsciiIsLowercasing` | sdks/rust/src/infrastructure/hosts.rs:95-96 | the laws assumed of lowercasing can be met |
| `RustHosts.OverrideAllowed` | sdks/rust/src/infrastructure/hosts.rs:79-126 | an endpoint override that resolves passes the allowlist made for it |
| `RustHosts.ChannelAllowed` | sdks/rust/src/infrastructure/hosts.rs:23-29 | both channel hosts are in the default allowlist |
| `RustHosts.ResolvedIsAccepted` | sdks/rust/src/application/mode.rs:130-143 | whatever resolves to remote passes the core's option validation and its host check, on all text |
| `RustHosts.ResolvedLocalIsAccepted` | sdks/rust/src/domain/validation.rs:282-314 | a local decision carries no credentials |
| `RustStart.Singleton.Start` | sdks/rust/src/start/state.rs:202-317 | a start changes the fields, logs and fails as specified, in every branch |
| `RustStart.Singleton.BeginRun` | sdks/rust/src/start/state.rs:258-316 | building the client installs it with its warnings, or fails |
| `RustStart.Singleton.FreshRun` | sdks/rust/src/start/state.rs:189-199 | a fresh run forgets the start but not warnings, sink, instance key or failure kinds |
| `RustStart.Singleton.AcquireLocked` | sdks/rust/src/start/state.rs:427-463 | a read starts implicitly if nothing was tried, then gets the client or the error of the state |
| `RustStart.Singleton.ObserveRemote` | sdks/rust/src/start/state.rs:470-486 | a remote failure sets the last kind and logs one line per kind |
| `RustStart.Singleton.ShutdownLocked` | sdks/rust/src/start/state.rs:795-800 | shutdown takes the client out |
| `RustStart.Differs` | sdks/rust/src/start/state.rs:102-119 | no field differs exactly when the signatures are equal |
| `RustRuns.EveryRun` | sdks/rust/src/start/state.rs:187-331 | in every run: Ready exactly when a client is installed that an earlier step built; Failed only with an error; untouched exactly when the next read would start implicitly |
| `RustRuns.RunningStartStands` | sdks/rust/src/start/state.rs:241-262 | in every run a start while Ready leaves everything as it is, and succeeds exactly when it resolves to the signature of the running start |
| `RustRuns.ReadIsTold` | sdks/rust/src/start/state.rs:427-463 | in every run a read is given the installed client, or the error of the start that failed, or AlreadyClosed; never that nothing was started |
| `RustRuns.OnlyStartRevives` | sdks/rust/src/start/state.rs:427-463 | reads never bring a failed or shut-down singleton back |
| `KeyRenaming.SwapIsAdmissible` | sdks/rust/src/start/resolve.rs:126-136 | exchanging two keys of one family is a renaming of the kind considered |
| `KeyRenaming.ResolveRenamed` | sdks/rust/src/start/resolve.rs:312-395 | renaming keys within their family renames the key of the decision and nothing else; errors stay word for word the same |
| `KeyRenaming.DiffersRenamed` | sdks/rust/src/start/state.rs:102-119 | a one-to-one renaming changes no comparison of signatures |
| `KeyRenaming.StartRenamed` | sdks/rust/src/start/state.rs:202-317 | a start behaves the same under renaming |
| `KeyRenaming.RunsLookAlike` | sdks/rust/src/start/state.rs:202-317 | two whole runs that differ only in such a renaming show the same lines, errors, clients, instance keys and statuses at every step |
| `RustForwarder.MergeContexts` | sdks/rust/src/domain/context.rs:151-162 | the loop merges present layers, later ones winning |
| `RustForwarder.EveryRead` | sdks/rust/src/start/state.rs:515-550 | every read in every process: a malformed one changes nothing and names its own fault; any other is served by the client that ran already or by the one its own start built, or is the default with what the last start returned, or with AlreadyClosed; a started runtime that is neither Ready nor Stale is not asked |
| `RustForwarder.InterleavedRead` | sdks/rust/src/start/state.rs:533-548 | the same when anything happens between asking for the running client and asking its adapter |
| `RustForwarder.ForwardedIsDirect` | sdks/rust/src/start/state.rs:515-550 | in every process, with both runtimes Ready, a read through the permanent client is the read made on the started client with the merged context |
| `RustForwarder.FirstReadIsDirect` | sdks/rust/src/start/state.rs:427-463 | so is the first read, when the start it makes succeeds |

## Left out

- HTTP, adapters' network code, sockets, timers and the fake and stub servers: I/O; an adapter is an arbitrary function or an event with an arbitrary outcome.
- Environment, Info.plist, UserDefaults, host names, clocks and random ids: arbitrary values that arrive with an event.
- Error tables, default messages, OpenFeature error codes and retryability: tables; an error is its kind, its message where one is given, and the flags the model needs.
- UTF-8 lengths and byte offsets: texts are sequences of characters, so the Go byte limits on keys count characters here.
- NaN, infinities, negative zero and lone surrogates: the printers are proved on finite numbers, written as the numerals they print as.
- `GoEvaluate.AskedIffAllPass`: the order of messages within the context check is not modelled, because Go visits map entries in no fixed order and every one of them has the same kind.
- `ContextCopy.CopyValue`: slices that overlap in memory without being the same container have no ids of their own here; identity is the container.
- `ContextJson.DeepCopyJson`: getters, proxies and symbol keys of JavaScript objects are not modelled; an object is its string-keyed entries.
- `ContextJson.CloneObject`: an own entry named `__proto__` is kept here; in the source (sdks/node/src/domain/validation.ts:201-211) the assignment to that key sets the prototype of the copy and the entry is lost. The verdict on cycles is the same.
- `Signatures.ControlPointsSignature`: Go compares keys byte by byte in UTF-8, which is the order of characters used here.
- `Signatures.GoDecidesStructure`: SHA-256 is taken as collision-free; `Signatures.MarkedIsCollisionFree` gives a digest that is.
- `RustHosts.ResolvedIsAccepted`: Unicode lowercasing is any function with the three laws stated in `Lowercasing`.
- `RustForwarder.EveryRead`: the context bounds are one arbitrary rule shared by both runtimes, as both are built with the default configuration; a context set directly on the started client's runtime is not modelled, and the test hook that resets the singleton is left out.
- `SwiftStart.InstanceKeyNeverChanges`: the test hook that clears the cached key is left out.
- `SwiftIdentity.LastIdentityWins`: what fw-server answers to a registration does not change the key and is left out; so are the stored device id, its persistence setting, and boots of runs that have ended, which are taken to end.
- `SwiftStart.EveryClientInOnePlace`: refresh ticks and their log lines change no client and are left out; the refresher is a flag of the run.
- `GoSingleton.Singleton.Start`: the texts of the two conflict errors are one error each; that they name the differing fields is `Differs`.
- Depth limits across languages: the Go, Node and Rust counts differ by one in places, and no agreement is claimed; Node's `nestingDepth` is not part of this model.
- Swift's unquoted control point signature: it is not injective, so no equality is claimed of it.
- Staleness of Rust's observed failures: it does not check which run they belong to; the Go property is the one proved.
- Rust's and Node's runtime lifecycles, the Web runtime, conformance runners, fixture loaders, build plugins and re-export facades.
