# Verified model of the deterministic half of the project

A Dafny model of the parts that must be right before anything touches a design
file: compiling and running plans, undoing a failed batch, recording what
happened, bounding what is remembered, indexing documents, comparing versions
and putting a streamed reply back together. The HTTP client, the tools and the
file formats are outside it.

| component | files |
|---|---|
| references, plans, compiler, executor | `Refs`, `RefLaws`, `RefMeaning`, `RefLookup`, `Plan`, `PlanMeaning`, `Program`, `Compile`, `CompileMeaning`, `Layout`, `Execute`, `RunOutputs`, `Soundness` |
| capture, rollback | `Disk`, `Snapshot`, `Rollback` |
| findings and their identities | `Findings` |
| items, index, queries, graph cache | `Items`, `Graph`, `GraphQuery`, `QueryMeaning`, `GraphStore`, `GraphReadings` |
| evidence store | `EvidenceStore` |
| run journal | `JournalPaths`, `Journal`, `JournalCodec`, `JournalImages`, `RunJournal`, `JournalHistory` |
| streamed replies | `Stream`, `StreamReply` |
| semantic diff | `Diff`, `DiffOrder` |
| idempotency ledger, operating mode | `Ledger`, `Mode` |
| shared | `Wrappers`, `Text`, `Json`, `Sorting` |

Loops and objects of the program are methods and classes here, each proved
against a function or predicate of the old state; what the program promises is
proved about those. Concurrency is a state machine whose steps are the atomic
sections of the calls, in any order, with the environment's own steps between
them. A disk operation may fail, may be the last one, and leaves its
intermediate states in a history the rollback theorems speak about.

`dafny verify dfyconfig.toml` checks everything.

## What is taken as given

- SHA-256 digests (document revisions, finding ids, signatures of projects) are
  parameters assumed injective where a theorem needs it; every such theorem
  says so in a `requires`.
- The op library, event and argument decoding, document extraction, index
  building inside the cache, the rendering of indexed attributes and the writing
  of numbers are arbitrary functions.
- A journal line is any rendering with the laws of JSON and UTF-8 the theorems use:
  it parses back, no proper part of it parses nor does text begun like a line with
  more glued on, and it is whole text without a newline (`LineCodec`; a format with
  these laws is given in `JournalCodec`).
- Numbers are reals; neighbour distances are compared and reported squared.
- An object of JSON is its list of fields in the order the program's map yields
  them, and a number is its canonical text.
- A walk over a directory, a hash map or a set may take its entries in any order;
  the items of a document are walked by kind and key, as their map keeps them.

## Where the code does less than its comments say

The model follows the code. Each point is a theorem with an exact condition, a
concrete counterexample, or both.

- `refs.rs:23`: an escaped `${` does not survive compilation, because rewriting
  writes literal text back unescaped (`EscapeIsLost`, `RewriteStringExact`,
  `PlainProgramIsItsListing`).
- `compile.rs:13-17`: a plan that cannot finish can start, if it names an
  operation that expanded to no step (`EmptyOpGap`, `EmptyOpsAreTheOnlyGap`).
- `snapshot.rs:285-288`: the rescan swallows the file limit, so a rollback may
  leave new files it does not report: exactly when some root has more files than
  the limit allows it does the rescan miss one (`CurrentTracked`, `Restore`,
  `SurvivorsExactly`), as on the disk of `OneFileSurvives`.
- `snapshot.rs:296`: a root is dropped when it lies inside another, though the walk
  from that one may not get to it (`GivenRootCoveredExactly`, `NestedRootIsLost`).
- `finding.rs:110-115`: the ids of repeated findings depend on their order when a
  location reads like a numbered form of another (`OrderFreeExactly`), and the
  separator of `finding.rs:69-70` keeps a finding apart from all others exactly
  when no field holds a NUL (`KeyExactly`, `NulConfusesFields`).
- `graph.rs:76-80` of the graph crate: a document added twice under one name
  leaves index entries of the items it replaced (`AgreesExactly`), and
  `crates/konnect-core/src/graph.rs:81-85` names documents by file name alone
  (`DirectoriesAreForgotten`, `ProjectAgreesExactly`, `SharedNameDisagrees`); its cache key reads as another project's exactly
  when a path holds `=`, a revision and `;` (`SignatureExactly`,
  `SeparatorsInPathsCollide`).
- `store.rs:194-197`: `Expired` is also the answer for id zero and for the wrong
  kind of an evicted id (`ExpiredExactly`).
- `journal.rs:322-325`: a torn line does not only lose itself.  It has no newline,
  so the next append, which reports success, is glued to it and lost too, and its
  images stay for good; a tear inside a character makes every later read and
  append fail (`AppendedReadsExactly`, `LostAppend`, `SpoiltForGood`).
- `journal.rs:408-411`: the image budgets count listed sets only.  They bound the
  disk exactly as long as no step orphans a set (`ListedExactly`,
  `BudgetsBoundTheDisk`, `AppendsOrphanExactly`, `OrphanOutlivesItsLine`).
- `journal.rs:268-279`: document paths are joined as they come, so a `..`, or an
  absolute path with no common root, leads out of the image set, and two images
  may be one file (`ImageStaysInsideExactly`, `ReadsBackExactly`,
  `SidesShareAFile`, `ImageLandsElsewhere`).
- `openai_compat.rs:306-309`: `[DONE]` ends the handling of one buffer, not of the
  stream, so chunking matters exactly when something after it can carry a
  payload (`ChunkingFreeExactly`).
- `diff.rs:108`: the order is kind, label and rendered text, and key only where
  the text ties (`KeyIsNotTheOrder`); the list is in the order promised exactly
  when no change is overtaken by a later key (`OrderedByKeyExactly`).
- `mode.rs:92-98`: restricting one mode to another is not commutative for `Write`
  and `Experimental`; the guard's final mode is settled all the same
  (`RestrictedIsLower`, `FinalModeIsSettled`).

## Model

| member | source | states |
|---|---|---|
| `Refs.ReadReference` | crates/kam-plan/src/refs.rs:229-254 | reading one reference body: target, then dotted path, with each malformed case refused, is the function the laws below are about |
| `Refs.ParseString` | crates/kam-plan/src/refs.rs:151-199 | the cursor loop finds exactly the tokens of the string, in order, or the first error, and its literal, whole and mixed results are those tokens gathered into runs |
| `Refs.FollowReference` | crates/kam-plan/src/refs.rs:428-450 | looking a reference up walks its path segment by segment; `RefLookup.LookupExactly` says what it finds |
| `Refs.ScanInto` | crates/kam-plan/src/refs.rs:263-295 | the recursive scan pushes every reference of a value in document order, or stops at the first that does not parse |
| `RefLaws.ParseAfterPrint` | crates/kam-plan/src/refs.rs:47-58 | printing any well-formed reference and parsing it gives the reference back |
| `RefLaws.ParsedIsWellFormed` | crates/kam-plan/src/refs.rs:229-254 | whatever the parser accepts is well-formed, and printing it introduces no closing brace |
| `RefLaws.PrintAfterParse` | crates/kam-plan/src/refs.rs:229-254 | parsing a body and printing it gives the body back if and only if no index was written with leading zeros |
| `RefLaws.EscapeIsWritten` | crates/kam-plan/src/refs.rs:151-199 | the cursor takes the escape branch only in a string that contains the three characters of an escape |
| `RefLaws.PrintedStringExact` | crates/kam-plan/src/refs.rs:151-199 | the pieces of a string print back to the string if and only if it holds no escape and no zero-padded index |
| `RefLaws.Reparse` | crates/kam-plan/src/refs.rs:374-426 | an escape-free string with its targets replaced, written out, parses to the same tokens with the targets replaced |
| `RefLaws.RewriteStringExact` | crates/kam-plan/src/refs.rs:374-426 | a rewritten string reads as the original pieces with their targets replaced if and only if the original takes no escape |
| `RefMeaning.NoTextNoEscapes` | crates/kam-plan/src/refs.rs:151-199 | a value without the escape text anywhere takes no escape anywhere |
| `RefMeaning.RewriteKeepsMeaning` | crates/kam-plan/src/refs.rs:375-426 | for every escape-free value, every target map and every set of outputs, the rewritten value resolves to what the original resolves to when each reference is looked up through the target map, and fails in the same way when it fails |
| `RefMeaning.RewriteValueExact` | crates/kam-plan/src/refs.rs:375-426 | every string of a rewritten value reads as the original's pieces with their targets replaced if and only if no string of the value takes an escape |
| `RefMeaning.ScannedResolves` | crates/kam-plan/src/refs.rs:303-346 | a value that scans resolves, or fails only on an operation with no output, a missing path or a value that is no scalar; the first only for a reference the scan listed |
| `RefMeaning.MissingStops` | crates/kam-plan/src/refs.rs:303-346 | a value with a reference to an operation that has no output never resolves |
| `RefMeaning.PlainResolves` | crates/kam-plan/src/refs.rs:303-346 | a value with no references resolves to itself if and only if it takes no escape |
| `RefLookup.LookupExactly` | crates/kam-plan/src/refs.rs:428-450 | a reference finds exactly the value at the end of a trail from its operation's output: under a key the first field of that name, at an index of an array the element there, at an index of an object the field named by its decimal, nothing else; without an output the error names the operation, without a trail the path |
| `RefLookup.IndexFindsItsElement` | crates/kam-plan/src/refs.rs:437-443 | replacing one element of an array changes what its own index finds and no other |
| `RefLookup.LookupInTwo` | crates/kam-plan/src/refs.rs:435-449 | a path in two parts finds what the second finds in what the first finds |
| `RefLookup.MixedResolves` | crates/kam-plan/src/refs.rs:308-330 | a string with references resolves to a text if and only if that is its pieces one after the other, text as it stands and each reference as JSON writes the scalar it finds; otherwise the first piece without such a text gives the error, a composite one as not scalar |
| `RefLookup.WholeResolves` | crates/kam-plan/src/refs.rs:307 | a string that is nothing but a reference resolves to the value found, of whatever type |
| `RefLookup.EmbeddedParses` | crates/kam-plan/src/refs.rs:151-199 | text with a reference in it parses to that text, that reference and that text |
| `RefLookup.EscapeReads` | crates/kam-plan/src/refs.rs:151-199 | an escape reads as the two characters that would open a reference |
| `RefLookup.ResolveKeepsShape` | crates/kam-plan/src/refs.rs:332-344 | resolving reaches every value inside an array or object, in place and under its name, and fails if and only if one of them does, with the error of the first; every other value but a string stays |
| `RefLookup.TargetExactly` | crates/kam-plan/src/refs.rs:229-254 | what may stand before the first dot is exactly a name of ASCII letters, digits, `_`, `-` and `/`, or `ops[`, a 64-bit number and `]` |
| `RefLookup.ScanInOrder` | crates/kam-plan/src/refs.rs:263-295 | the references of a value are those of the values inside it, one after the other, and the first that does not parse gives the error |
| `RefLookup.PiecesInOrder` | crates/kam-plan/src/refs.rs:263-280 | the references of a string are those of its pieces, one after the other |
| `Plans.FromJson` | crates/kam-plan/src/ir.rs:234-402 | the decoding loops are the function whose meaning, field by field, is `PlanMeaning.DecodeExactly`, with the first fault of a document as the error |
| `Plans.DecodedIsValid` | crates/kam-plan/src/ir.rs:234-402 | every accepted plan has the current version, at least one operation, pairwise distinct slash-free ids and object parameters |
| `Plans.RoundTrip` | crates/kam-plan/src/ir.rs:406-458 | writing a plan and reading it back gives the plan if and only if it is one the parser could have produced |
| `PlanMeaning.DecodeExactly` | crates/kam-plan/src/ir.rs:234-402 | a document is read as a plan if and only if its fields mean that plan: version one or none given, identity and lists empty where absent or null, revisions by path with the last word on each, each operation with its type, its id or `op` and its place from one, ids distinct and of the allowed characters, parameters or the empty object, and the policy below |
| `PlanMeaning.PolicyExactly` | crates/kam-plan/src/ir.rs:302-315 | absent, null or spelt as not set means atomic; the three names mean their policies; any other string is refused with itself, and what is no string for that |
| `PlanMeaning.UnsetExactly` | crates/kam-plan/src/ir.rs:305-308 | exactly the empty text, none, null and default count as not set, whatever the case of their letters and the white space around them |
| `PlanMeaning.RefusalsAreTrue` | crates/kam-plan/src/ir.rs:234-402 | every refusal names a field, an element, a revision, an operation or an id of the document that is wrong in the way it says; a duplicate id is that of an earlier operation |
| `Compiler.ApplyDefaults` | crates/kam-plan/src/compile.rs:254-268 | the merging loop is the function whose law is `DefaultsFill` |
| `Compiler.DefaultsFill` | crates/kam-plan/src/compile.rs:254-268 | a default fills a key only where the operation gave none |
| `Compiler.Expand` | crates/kam-plan/src/compile.rs:283-321 | the expansion loop hands the library each operation with the defaults filled in and grows the steps and the expansion table, or stops at the first refusal; `CompileMeaning.CompiledExactly` says what of |
| `Compiler.CollectNames` | crates/kam-plan/src/compile.rs:329-354 | the three name tables: every id, ids by position, ids by operation type in plan order |
| `Compiler.Canonicalise` | crates/kam-plan/src/compile.rs:361-418 | the rewriting loops give every step its arguments with canonical targets, or the first refusal |
| `Compiler.CheckReferences` | crates/kam-plan/src/compile.rs:429-463 | the checking loops find the first reference that names nothing earlier; `Layout.CheckedFrom` says what passing means |
| `Compiler.Compile` | crates/kam-plan/src/compile.rs:276-475 | the whole compilation, phase by phase, is the function `CompileMeaning.CompiledExactly` describes and the soundness theorem is about |
| `Layout.ExpandedLayout` | crates/kam-plan/src/compile.rs:283-321 | each operation's steps are contiguous, in plan order, and the expansion counts add up to the steps |
| `Layout.RewriteFromArgs` | crates/kam-plan/src/compile.rs:361-418 | each step's arguments are rewritten once, by the resolver of the operation it belongs to, and nothing else about a step changes |
| `Layout.CheckedFrom` | crates/kam-plan/src/compile.rs:429-463 | the check passes if and only if every step's references parse and name a strictly earlier operation or one of its steps |
| `Layout.CompiledShape` | crates/kam-plan/src/compile.rs:276-475 | a compiled program is laid out in plan order and every reference in it names something strictly earlier |
| `Layout.StepIdsDistinct` | crates/kam-plan/src/compile.rs:283-321 | no two steps of a compiled plan share an id, and a step's id is an operation's only when it belongs to it |
| `CompileMeaning.CompiledExactly` | crates/kam-plan/src/compile.rs:276-475 | a plan compiles to a program if and only if the program is this: each operation, with its own parameters and a default under each name it leaves out, is accepted by the library; the calls answered stand in plan order, an only call under the operation's id and several numbered from zero, with the tools answered and the arguments answered rewritten for the operation; there is at least one; every reference names something earlier; and the rest is the plan's |
| `CompileMeaning.OneListing` | crates/kam-plan/src/compile.rs:254-268 | objects in key order with the same value under every name are one object, so parameters can be filled in in one way only |
| `CompileMeaning.RefusalsAreTrue` | crates/kam-plan/src/compile.rs:276-475 | a failed expansion names the first operation the library refuses as filled in, with its error; nothing to do means no operation came to a call; every other refusal names an operation with a call whose arguments cannot be rewritten, or with a reference that does not parse, names nothing, or names what is not earlier |
| `Execute.EveryRunIsValid` | crates/kam-plan/src/execute.rs:112-195 | over every sequence of asks and records: results are exactly steps 0 to the cursor in program order, the outputs are what those results bound, and a halting policy halts on the first failure, which is the last result |
| `Execute.AskTwice` | crates/kam-plan/src/execute.rs:112-165 | asking again without recording hands out the same step and changes nothing |
| `Execute.ReportIsTrue` | crates/kam-plan/src/execute.rs:205-219 | ran and not run add up to the steps, ok is the number of results that are ok, the failure reported is the first, under any policy but `continue` it is the last result, and rollback is asked for exactly by an atomic plan that failed |
| `Execute.OperationNamesLastStep` | crates/kam-plan/src/execute.rs:170-195 | an operation's id is bound if and only if some step of it was recorded, and then to the output of the last one |
| `RunOutputs.EveryOutputHasItsNames` | crates/kam-plan/src/execute.rs:170-195 | over every run of a compiled plan: a step's id names its own output, exactly once it is recorded; an operation's id names the output of its last recorded step; and no other address names anything |
| `Soundness.ErrorKindIsTold` | crates/kam-plan/src/execute.rs:141-152 | the output of a refused step holds the code and the text of its error |
| `Execute.Execution.NextStep` | crates/kam-plan/src/execute.rs:112-165 | the answer and the whole new state of asking: the step pending, the step at the cursor with its arguments resolved, that step refused and recorded as such, or nothing left |
| `Execute.Execution.RecordOutcome` | crates/kam-plan/src/execute.rs:170-195 | the whole new state of recording an outcome: one result with what was reported, the output under the step's id and the operation's, one step on, halted on a failure unless the policy is to continue; `RunOutputs.EveryOutputHasItsNames` says what that makes of a run |
| `Execute.Execution.MakeReport` | crates/kam-plan/src/execute.rs:205-219 | the report is the one `ReportIsTrue` is about |
| `Soundness.StepOutcome` | crates/kam-plan/src/compile.rs:429-463 | what can stop the next step of a compiled plan when everything before it was recorded: a missing path, a value that is no scalar, or a reference to an operation that expanded to nothing |
| `Soundness.RefusedStep` | crates/kam-plan/src/execute.rs:112-165 | under any policy a refused step was refused for an unknown operation, a missing path or a non-scalar; for an unknown operation only if it refers to one that expanded to nothing or an earlier step was itself refused |
| `Soundness.CompiledPlansAreSound` | crates/kam-plan/src/compile.rs:276-475 | a valid plan that compiles: in no run, with any outputs and any ok flags, is a step refused as malformed or unterminated; and unless the step itself refers to an operation that expanded to nothing, never as unknown under a halting policy, and under `continue` only after an earlier refusal |
| `Soundness.EmptyOpsAreTheOnlyGap` | crates/kam-plan/src/compile.rs:459-463 | with everything before it recorded, the next step is certain to be refused when it names an operation that expanded to nothing, and otherwise only a missing path or a non-scalar can refuse it |
| `Soundness.EmptyOpGap` | crates/kam-plan/src/compile.rs:459-463 | a valid plan that compiles and whose only step is refused at once with `ref_unknown_op`, because the operation it names expanded to nothing |
| `Soundness.ResolverTargets` | crates/kam-plan/src/compile.rs:361-418 | every answer of the resolver can stand in a reference and be parsed back |
| `Soundness.PositionForm` | crates/kam-plan/src/compile.rs:361-418 | `${ops[N]}` is the operation at position N, and stays as it is when there is none |
| `Soundness.NumericForm` | crates/kam-plan/src/compile.rs:361-418 | a bare number is an earlier position or an earlier id, and is refused when it could be both |
| `Soundness.NamedForm` | crates/kam-plan/src/compile.rs:361-418 | any other target is itself when it is an id or names nothing, else the one operation of the type it names; it is refused exactly when several share that type, which the refusal lists |
| `Soundness.CompiledKeepsMeaning` | crates/kam-plan/src/compile.rs:361-418 | a compiled step's arguments resolve, against any outputs, to what the arguments as written resolve to with each target read as the three forms above define |
| `Soundness.PlainProgramIsItsListing` | crates/kam-plan/src/program.rs:130-145 | a program with no references never has a step refused and hands out exactly its listing of calls, step by step, if and only if the step takes no escape |
| `Soundness.EscapeIsLost` | crates/kam-plan/src/refs.rs:374-426 | an escaped literal is written back unescaped, and then reads as a reference |
| `Snapshots.NormaliseRoots` | crates/kam-state/src/snapshot.rs:297-309 | the loop that drops nested roots is the function `NormalisedWell` is about |
| `Snapshots.NormalisedWell` | crates/kam-state/src/snapshot.rs:297-309 | the kept roots are some of the given ones, none lies inside another, and every given root lies inside one of them |
| `Snapshots.ApartReach` | crates/kam-state/src/snapshot.rs:297-309 | a file two roots both reach forces one of them inside the other, so no file is collected twice |
| `Snapshots.EntryReach` | crates/kam-state/src/snapshot.rs:325-345 | what one directory entry contributes: nothing if skipped or untracked, itself if a tracked file, everything below it if a directory |
| `Snapshots.Collect` | crates/kam-state/src/snapshot.rs:311-347 | the recursive walk appends exactly the tracked files it can reach, without repeats, unless it stops one file past the limit or on an error |
| `Snapshots.CurrentTracked` | crates/kam-state/src/snapshot.rs:282-294 | when no listing fails, the rescan finds all of one root's files if and only if the root has at most one, or brings the files of the roots so far to at most one past the limit, and so every visible file if and only if each root does; it never holds more than the limit plus one a root |
| `Snapshots.FewFilesFit` | crates/kam-state/src/snapshot.rs:282-294 | no more visible files than the limit plus one keep every root within what it is allowed, however they are spread |
| `Snapshots.CollectAll` | crates/kam-state/src/snapshot.rs:150-161 | the capture's walk over all roots: the visible files, or an error that a full disk answer gives only past the file limit |
| `Snapshots.ReadAll` | crates/kam-state/src/snapshot.rs:163-175 | the byte loop reads every listed file with its content, or stops past the byte limit |
| `Snapshots.Capture` | crates/kam-state/src/snapshot.rs:150-182 | a successful capture holds every document below its kept roots, no deeper than the limit and below no directory passed over, with its content, and nothing else, within both limits; it refuses past a limit, naming it, or on an I/O failure |
| `Snapshots.TrackedExactly` | crates/kam-state/src/snapshot.rs:349-353 | a name is tracked if and only if it is something, a dot, and one of the nine extensions after the last dot |
| `Snapshots.SkippedExactly` | crates/kam-state/src/snapshot.rs:330-334 | no walk enters four named directories and those whose name ends in `-backups`, and only those |
| `Snapshots.GivenRootCoveredExactly` | crates/kam-state/src/snapshot.rs:296-309 | a document below a given root that was dropped for a root around it is captured if and only if the walk from that root gets there: nothing passed over on the way, the depth counted from it |
| `Snapshots.NestedRootIsLost` | crates/kam-state/src/snapshot.rs:296-309 | `project` and `project/target` given together: a board in the second is not captured |
| `Snapshots.CapturesWithinLimits` | crates/kam-state/src/snapshot.rs:150-182 | a capture never succeeds past a limit, whichever order the files are counted in |
| `Rollbacks.TempNeverTracked` | crates/kam-state/src/snapshot.rs:361-366 | the name of a temporary file is never that of a tracked document |
| `Rollbacks.WriteAtomic` | crates/kam-state/src/snapshot.rs:358-375 | at every state in between, only the target and the temporary file differ, and the target holds what it held or all of what was to be written; success leaves no temporary file |
| `Rollbacks.SafeWrite` | crates/kam-state/src/snapshot.rs:358-375 | one atomic write keeps a half-done rollback safe |
| `Rollbacks.WriteBack` | crates/kam-state/src/snapshot.rs:255-264 | after the first loop every captured path holds its captured content or is listed as failed and unchanged; nothing else but temporary files changed |
| `Rollbacks.Sweep` | crates/kam-state/src/snapshot.rs:266-275 | after the second loop every rescanned path that was not captured is removed or listed as failed |
| `Rollbacks.Restore` | crates/kam-state/src/snapshot.rs:252-280 | every state passed through is safe to be interrupted in; the report names each differing path once, with what became of it; with no failure, everything was found if and only if each root keeps to its allowance, and the captured state is back if and only if every file created since was found; a directory already in that state is left alone and nothing is reported |
| `Rollbacks.Changed` | crates/kam-state/src/snapshot.rs:225-246 | only differing paths are listed, with their present state; with no failure and every root within its allowance all are, so the list is empty if and only if the captured state holds |
| `Rollbacks.SameEverywhere` | crates/kam-state/src/snapshot.rs:225-246 | the captured state holds if and only if no path differs |
| `Rollbacks.CapturedIsSound` | crates/kam-state/src/snapshot.rs:150-182 | a captured snapshot has what a restore needs of one |
| `Rollbacks.RollbackIsExact` | crates/kam-state/src/snapshot.rs:252-280 | capture, any edits, and a restore that succeeds: every path the walk can see is as it was at capture, every file created since is reported deleted, and no other path was touched |
| `Rollbacks.SurvivorsExactly` | crates/kam-state/src/snapshot.rs:266-280 | a file that is visible, not captured and in no list of the report is exactly one created since that the rescan did not find |
| `Rollbacks.AllowanceDecides` | crates/kam-state/src/snapshot.rs:252-294 | before the call: with no failure the captured state comes back if each root that holds a created file keeps to its allowance, and does not if some root exceeds it and holds no captured file |
| `Rollbacks.FileLimitHidesSurvivors` | crates/kam-state/src/snapshot.rs:282-294 | with more new files than the limit plus one a root, some survive a rollback and no list of the report names them |
| `Rollbacks.OneFileSurvives` | crates/kam-state/src/snapshot.rs:252-294 | a concrete disk: two new files under one root with a limit of none, and a rollback that meets no failure leaves one of them unreported |
| `Findings.KeyInjective` | crates/kam-evidence/src/finding.rs:67-85 | for validators and rules without NUL, different findings hash different keys |
| `Findings.KeyExactly` | crates/kam-evidence/src/finding.rs:67-85 | a finding shares its key with no other if and only if none of its validator, rule and location holds a NUL |
| `Findings.NulConfusesFields` | crates/kam-evidence/src/finding.rs:67-85 | two different findings of the validator `erc` with one id, a NUL standing in the rule of one and the location of the other |
| `Findings.FilledBound` | crates/kam-evidence/src/finding.rs:117-131 | no more numbers of one key can be taken than there are findings |
| `Findings.FindingSet.Push` | crates/kam-evidence/src/finding.rs:117-141 | the loop ends within as many tries as there are findings, plus one; the finding gets the first number whose id is free, the id is the hash of validator, rule and numbered location between NULs, and it is appended and nothing else changes |
| `Findings.RecordsDistinct` | crates/kam-evidence/src/finding.rs:117-141 | all ids of a set stay pairwise distinct |
| `Findings.RecordsExpected` | crates/kam-evidence/src/finding.rs:117-141 | without clashes each key gets exactly the numbers below its count |
| `Findings.OrderFreeExactly` | crates/kam-evidence/src/finding.rs:117-141 | the ids of a multiset of findings do not depend on the order they are pushed in if and only if no finding's key is a numbered form that a repeated finding lays claim to |
| `Findings.ClashIsOrderDependent` | crates/kam-evidence/src/finding.rs:117-141 | any such clash gives two orders with different ids |
| `Findings.PlainLocationsNeverClash` | crates/kam-evidence/src/finding.rs:117-141 | findings whose locations hold no `#` never clash |
| `Findings.DeltaAccounts` | crates/kam-evidence/src/finding.rs:189-197 | fixed plus unchanged is the first run, introduced plus unchanged is the second, whatever the locations |
| `Findings.DeltaCounts` | crates/kam-evidence/src/finding.rs:189-197 | between two runs without clashes, fixed and introduced count the summed positive differences of the multisets, unchanged their common part, and the delta is empty if and only if the multisets are equal |
| `Items.Insert` | crates/kam-evidence/src/model.rs:149-151 | a later item takes the place of an earlier one with its identity and disturbs no other |
| `Graphs.IndexAttrs` | crates/kam-graph/src/graph.rs:132-139 | each indexed attribute files the item under its rendered value, and no other value changes |
| `Graphs.IndexDocument` | crates/kam-graph/src/graph.rs:121-150 | indexing one more document gives the index of the documents with it |
| `Graphs.Build` | crates/kam-graph/src/graph.rs:111-162 | the six maps hold exactly what the documents say: items and last-write-wins, and for kinds, labels, attribute values and points what any document ever filed |
| `GraphQueries.NarrowAttrs` | crates/kam-graph/src/graph.rs:219-231 | the attribute loop narrows the candidate to the addresses under every value asked for, or names the first attribute that is not indexed |
| `GraphQueries.RunQuery` | crates/kam-graph/src/graph.rs:205-262 | a query is refused exactly for its first unindexed attribute, else for a region without a spatial index; otherwise `total` is the number of addresses the index selects and the items are the first of them in (document, kind, key) order, up to the limit and never past the hard cap |
| `GraphQueries.IndexedIsClosed` | crates/kam-graph/src/graph.rs:111-162 | every address in an index is an item's, so no result can be missing |
| `GraphQueries.AgreesExactly` | crates/kam-graph/src/graph.rs:205-262 | every query is answered as a linear scan over the items would be if and only if nothing the index remembers of a replaced item is untrue of the item that replaced it |
| `GraphQueries.DistinctNamesNeverStale` | crates/kam-graph/src/graph.rs:81-84 | documents with pairwise distinct names leave nothing stale |
| `GraphQueries.ReplacedItemKeepsItsOldLabel` | crates/kam-graph/src/graph.rs:126-150 | one name given to two documents: a query for the old label finds the new item |
| `GraphQueries.Neighbors` | crates/kam-graph/src/graph.rs:279-320 | refused for an unknown or unplaced item; otherwise the items of the same document within the radius, nearest first with ties by address, each no farther than any left out |
| `GraphQueries.NeighborsAreItems` | crates/kam-graph/src/graph.rs:279-320 | with nothing stale the neighbours are exactly the items whose own points, as they read now, lie within the radius |
| `QueryMeaning.QueryExactly` | crates/kam-graph/src/graph.rs:205-262 | told from the documents: a query that is not refused finds exactly the addresses some document holds and that meet every filter, the kind, a label and values some document gave, a last point between the four bounds, and the document |
| `QueryMeaning.RefusedExactly` | crates/kam-graph/src/graph.rs:219-236 | a query is refused exactly for the first attribute the builder was not told to index, else for a region where no attribute holds points |
| `QueryMeaning.NeighborsExactly` | crates/kam-graph/src/graph.rs:294-309 | told from the documents: the neighbours are exactly the other items of the document whose last points lie within the radius |
| `GraphStores.Remember` | crates/konnect-core/src/graph.rs:259-270 | the eviction loop of either cache is the function `RememberedKeeps` is about |
| `GraphStores.RememberedKeeps` | crates/konnect-core/src/graph.rs:259-270 | storing keeps at most 64 entries and a queue that lists the keys once each; the new entry is there, no other is altered, and at most the oldest is dropped, only for a new key on a full cache |
| `GraphStores.SignatureInjective` | crates/konnect-core/src/graph.rs:179-196 | among paths holding no `=`, revision, `;` a signature names one list of files with one set of contents |
| `GraphStores.SignatureExactly` | crates/konnect-core/src/graph.rs:179-196 | of all lists of readings, one is the only one of its signature with clean paths if and only if its own paths are clean, that is hold no `=`, revision of some content, `;` |
| `GraphStores.SeparatorsInPathsCollide` | crates/konnect-core/src/graph.rs:179-202 | two projects of `.kicad_sch` files under one directory, one path holding such a mark, have one key, and the second call is handed the first one's graph, which has lost a sheet |
| `GraphStores.DirectoriesAreForgotten` | crates/konnect-core/src/graph.rs:81-85 | documents of one file name in two directories are one document name |
| `GraphStores.ProjectAgreesExactly` | crates/konnect-core/src/graph.rs:204-219 | a project's queries are answered as a scan over its items would be if and only if nothing a file holds is untrue of what the last file of its name puts in its place |
| `GraphStores.OwnNamesAgree` | crates/konnect-core/src/graph.rs:81-85 | so they are when no two files share a file name |
| `GraphStores.SharedNameDisagrees` | crates/konnect-core/src/graph.rs:81-85 | and they are not when two files of one name in two directories hold an item under two labels |
| `GraphStores.GraphStore.ExtractionOf` | crates/konnect-core/src/graph.rs:224-253 | an extraction is what extracting the bytes gives, cached or not, and the caches stay coherent |
| `GraphStores.GraphStore.Get` | crates/konnect-core/src/graph.rs:179-222 | the graph returned is the one built from scratch from the readings, cached or not, and the caches stay coherent |
| `GraphStores.StepKeeps` | crates/konnect-core/src/graph.rs:179-270 | every locked section, file read and file edit keeps the caches coherent and every call's work in progress true of its own readings |
| `GraphStores.EveryRunIsCoherent` | crates/konnect-core/src/graph.rs:179-270 | over every history of file edits and interleaved calls split at their locks, each returned graph equals one built from the bytes that call read, and both caches hold at most 64 entries |
| `GraphReadings.EveryReadingIsTrue` | crates/konnect-core/src/graph.rs:179-190 | over every such history a call works on one reading of each document it was asked about, in path order once all are read, each of bytes the file held at some moment since the call began |
| `GraphReadings.BuiltFromFiles` | crates/konnect-core/src/graph.rs:204-253 | a graph built with no cache is built from one document per file of a kind that parses, named after the file, in the order of the readings |
| `EvidenceStores.EvidenceStore.constructor` | crates/kam-evidence/src/store.rs:132-139 | both bounds are at least one |
| `EvidenceStores.EvidenceStore.Put` | crates/kam-evidence/src/store.rs:152-174 | after every put the entries are the longest suffix of the whole history within both budgets, the byte counter is their exact sum, ids count up by one and the handle is scheme, kind and id |
| `EvidenceStores.RetainedIsLongest` | crates/kam-evidence/src/store.rs:168-172 | a suffix of the history fits both budgets if and only if it is no longer than what is retained |
| `EvidenceStores.RetainedIncremental` | crates/kam-evidence/src/store.rs:152-174 | evicting as entries arrive keeps what evicting once from the whole history would |
| `EvidenceStores.DroppedGrows` | crates/kam-evidence/src/store.rs:152-174 | what has been dropped stays dropped |
| `EvidenceStores.UriRoundTrip` | crates/kam-evidence/src/store.rs:224-235 | every URI printed for a kind that is not empty parses back to its kind and id |
| `EvidenceStores.UriExactly` | crates/kam-evidence/src/store.rs:224-235 | a handle is read as a kind and an id if and only if it is the scheme, a kind that is not empty and a 64-bit number, perhaps with a plus sign; anything else is malformed |
| `EvidenceStores.EvidenceStore.Get` | crates/kam-evidence/src/store.rs:183-203 | the lookup is the function `LookupMeaning` is about |
| `EvidenceStores.LookupMeaning` | crates/kam-evidence/src/store.rs:183-203 | a lookup gives the entry if it is retained and of the kind asked for, `Expired` for every other id up to the high-water mark that is not retained, else `Unknown` |
| `EvidenceStores.HandlesResolve` | crates/kam-evidence/src/store.rs:183-203 | a handle issued with a kind resolves to its own entry or to `Expired` whatever was put in since, and once `Expired` stays so |
| `EvidenceStores.ExpiredExactly` | crates/kam-evidence/src/store.rs:194-202 | `Expired` is said of exactly the ids up to the last one dropped; it means issued and since evicted just when the id is not zero and the kind is the one that id was issued with |
| `EvidenceStores.ZeroIsExpired` | crates/kam-evidence/src/store.rs:194-202 | id zero is `Expired` in a store nothing was ever put in |
| `EvidenceStores.EmptyKindIsMalformed` | crates/kam-evidence/src/store.rs:224-235 | a handle issued with an empty kind is one the store calls malformed |
| `JournalPaths.FindCommonRoot` | crates/kam-state/src/journal.rs:477-497 | the truncating loop is the function `SharedPrefixGreatest` is about |
| `JournalPaths.SharedPrefixGreatest` | crates/kam-state/src/journal.rs:477-497 | the common root is a prefix of every document's directory and the longest such |
| `JournalPaths.RootRebuilds` | crates/kam-state/src/journal.rs:499-504 | root and tail together are the document's path again, and the tail is not empty |
| `JournalPaths.SlashRoundTrip` | crates/kam-state/src/journal.rs:509-518 | a tail written with slashes reads back as itself |
| `JournalPaths.WalkExactly` | crates/kam-state/src/journal.rs:268-279 | a path followed from a directory ends at what is left of the directory after the `..` not taken back, and the names not taken back |
| `JournalPaths.LandsBelowExactly` | crates/kam-state/src/journal.rs:268-279 | a tail joined to a directory lands below one above it if and only if enough of the directory survives its `..`, or its names lead back down |
| `Journals.LastLinesIncremental` | crates/kam-state/src/journal.rs:391-406 | compacting after each line keeps what compacting the whole history once would |
| `Journals.EvictImages` | crates/kam-state/src/journal.rs:412-438 | the eviction loop removes the surplus of the oldest listed image sets, and nothing else |
| `Journals.SurplusIsLeast` | crates/kam-state/src/journal.rs:428-436 | what is left after dropping the first k listed sets fits both budgets if and only if k is at least the surplus |
| `Journals.EvictedLeaves` | crates/kam-state/src/journal.rs:412-438 | after it the listed sets are the newest of those listed before, with unchanged sizes, within both budgets |
| `Journals.FeedLine` | crates/kam-state/src/journal.rs:309-315 | a line written after nothing, or after a newline, is read as its entry; written after unfinished text it is one line with it that does not parse |
| `Journals.FeedTwice` | crates/kam-state/src/journal.rs:309-315 | bytes written in two goes read as bytes written at once |
| `JournalCodecs.LawsCanBeMet` | crates/kam-state/src/journal.rs:307-315 | the laws asked of the line format hold of a concrete one |
| `Journals.EntryTells` | crates/kam-state/src/journal.rs:236-305 | an entry tells its record: outcome, root, each document's tail and revisions; images are left out exactly when their bytes come to more than the limit, a side has a directory exactly when some document has bytes on it, and a token exactly when the earlier side has one |
| `Journals.EntriesExactly` | crates/kam-state/src/journal.rs:326-360 | reading gives every line that parses, once each, oldest first, unchanged while its image set is on disk and without its image fields once it is gone |
| `RunJournals.RunJournal.TearAppend` | crates/kam-state/src/journal.rs:309-315 | an append that stops after any number of bytes of its line, the newline included: the whole new state, and the journal is still sound |
| `RunJournals.RunJournal.Append` | crates/kam-state/src/journal.rs:230-321 | the whole new state of an append; it fails exactly when the file is no text, and otherwise the lines are the last of the history, the image sets of the listed entries are the newest of those listed and fit both budgets, and no more than the surplus was removed |
| `RunJournals.AppendKeeps` | crates/kam-state/src/journal.rs:230-321 | an append keeps every image set on disk either whole or gone, never part of one, and every line one that was written |
| `RunJournals.TornKeeps` | crates/kam-state/src/journal.rs:309-315 | so does one that stops part-way through its line, at whichever byte |
| `RunJournals.AppendedReadsExactly` | crates/kam-state/src/journal.rs:307-341 | after an append its entry can be read if and only if the file was text, was empty or ended in a newline, and a line may be kept at all; after unfinished text neither the new entry nor that of the text is found |
| `RunJournals.SpoiltForGood` | crates/kam-state/src/journal.rs:326-341 | once a tear inside a character has made the file no text, it stays so: every later read and append fails |
| `RunJournals.RunJournal.ReadEntries` | crates/kam-state/src/journal.rs:326-341 | an error if the file is no text, otherwise every line that parses, the unfinished one included, oldest first, with its image fields cleared if its set is gone |
| `RunJournals.ReadsBack` | crates/kam-state/src/journal.rs:367-380 | an entry whose set is on disk reads back, for each document and side, exactly the bytes recorded, or nothing where none were, when the tails stay inside and lead to different files |
| `RunJournals.TokensReadBack` | crates/kam-state/src/journal.rs:352-380 | as long as every image ever written landed in its own set, any entry returned with a rollback token yields, for such documents, exactly the before and after bytes recorded |
| `JournalImages.ReadsBackExactly` | crates/kam-state/src/journal.rs:268-279 | whatever the bytes, images of documents with given paths read back if and only if every image is read where it was written and no two are written to one file |
| `JournalImages.SeparableExactly` | crates/kam-state/src/journal.rs:268-279 | for documents whose tails stay inside, that is so if and only if the tails lead to different files |
| `JournalImages.ImageStaysInsideExactly` | crates/kam-state/src/journal.rs:268-279 | an image lands inside its set if and only if its tail is relative and climbs at most one level, or its names lead back in; a tail is absolute exactly when no root is shared and the path is |
| `JournalImages.PlainImageStaysExactly` | crates/kam-state/src/journal.rs:268-279 | without `.` and `..` in its path a document's tail stays inside if and only if the documents share a root or the path is not absolute |
| `JournalImages.SidesShareAFile` | crates/kam-state/src/journal.rs:268-279 | `p/../x/a.kicad_sch` beside `p/b.kicad_sch`: both images are one file, and the token's before-image reads as the after-image |
| `JournalImages.ImageLandsElsewhere` | crates/kam-state/src/journal.rs:268-279 | `../../<id>/a.kicad_sch` beside `b/y.kicad_sch`: no path is absolute, and the image lands in the directory of another set |
| `JournalHistories.StepExactly` | crates/kam-state/src/journal.rs:230-321 | a step keeps every image set on disk listed if and only if it orphans none: no set loses its line to compaction, is written with no line kept, or depends on unfinished text |
| `JournalHistories.ListedExactly` | crates/kam-state/src/journal.rs:391-438 | over every history of appends and torn appends whose images land in their sets, each image set on disk has a line readers find if and only if no step orphaned one |
| `JournalHistories.BudgetsBoundTheDisk` | crates/kam-state/src/journal.rs:412-438 | then after an append that succeeds any image sets on disk fit both budgets, not only those listed |
| `JournalHistories.AppendsOrphanExactly` | crates/kam-state/src/journal.rs:391-438 | without crashes an append orphans a set if and only if the journal is full and the set of its oldest line is on disk |
| `JournalHistories.LostAppend` | crates/kam-state/src/journal.rs:307-321 | an append after unfinished text succeeds, and leaves its image set on disk with no line |
| `JournalHistories.OrphansStay` | crates/kam-state/src/journal.rs:412-438 | a set with no line stays on disk, and without one, through every later step |
| `JournalHistories.CompactedSetsStay` | crates/kam-state/src/journal.rs:417-424 | an image set whose line was compacted away is never listed, so never counted and never removed |
| `JournalHistories.OrphanOutlivesItsLine` | crates/kam-state/src/journal.rs:391-438 | with room for one line and one image set, two appends leave two image sets on disk, over the budget |
| `Streams.DrainBuffer` | crates/kam-llm/src/openai_compat.rs:295-341 | the line loop handles the payloads of the buffer in order, stopping at the first that does not decode, and leaves the unfinished line, or nothing after a `[DONE]` line |
| `Streams.AbsorbEvent` | crates/kam-llm/src/openai_compat.rs:319-339 | one event: usage overwritten, content appended, the first choice's deltas merged in order, the finish reason replaced |
| `Streams.Consume` | crates/kam-llm/src/openai_compat.rs:279-376 | the whole reply is a function of the payloads the chunks bring and of whether the transport broke |
| `Streams.DrainCut` | crates/kam-llm/src/openai_compat.rs:291-309 | a cut before any `[DONE]` line makes no difference; after one, the rest of the buffer is never looked at |
| `Streams.ChunkingFreeExactly` | crates/kam-llm/src/openai_compat.rs:291-309 | the payloads do not depend on the chunking if and only if no line after the first `[DONE]`, started anywhere, carries a payload |
| `Streams.NoisyTailShows` | crates/kam-llm/src/openai_compat.rs:306-309 | any such line is a payload in one chunking and nothing in another |
| `Streams.BlankTailIsQuiet` | crates/kam-llm/src/openai_compat.rs:306-309 | blank lines after `[DONE]` are harmless |
| `Streams.ChunkingDoesNotMatter` | crates/kam-llm/src/openai_compat.rs:279-376 | the reply to such a text is the same however it is cut: content, calls, finish reason, usage, or the first error |
| `Streams.MergeDelta` | crates/kam-llm/src/openai_compat.rs:378-394 | the padding loop and the overwriting of one call are the function `CallsAreReassembled` is about |
| `Streams.CallsAreReassembled` | crates/kam-llm/src/openai_compat.rs:378-394 | each call's arguments are the in-order concatenation of the fragments carrying its index, its id and name are the last given, and there are calls up to the highest index seen |
| `Streams.NothingIsLost` | crates/kam-llm/src/openai_compat.rs:319-339 | every delta of every payload is merged and every piece of content kept, in order |
| `StreamReplies.ClassifyExactly` | crates/kam-llm/src/openai_compat.rs:295-309 | a line is the end of the stream, a payload or nothing by what follows `data:` between white space |
| `StreamReplies.DrainExactly` | crates/kam-llm/src/openai_compat.rs:291-309 | reading a buffer handles what its complete lines carry up to the first `[DONE]`; without one, what follows the last newline stays |
| `StreamReplies.ReplyMeans` | crates/kam-llm/src/openai_compat.rs:343-403 | the reply of payloads that all decode: the content or none, each call with its id, name and decoded arguments, the usage last given, and the finish reason last given, a stop or nothing at all reading as tool calls when there are calls |
| `StreamReplies.FailureMeans` | crates/kam-llm/src/openai_compat.rs:316-359 | a failed stream names the first payload that does not decode, else the transport that broke, else the first call whose arguments do not decode |
| `Diffs.AttrChanges` | crates/kam-evidence/src/diff.rs:241-261 | exactly the attributes that are not the same, each once, with both values, in name order |
| `Diffs.Compute` | crates/kam-evidence/src/diff.rs:115-149 | every item that changed, once, as added, removed or modified, and nothing else, in order of kind, label and rendered text, and where these tie what the new version holds before what only the old one held, each by kind and key |
| `Diffs.DiffIsOneList` | crates/kam-evidence/src/diff.rs:115-149 | two versions have exactly one such list, so the answer is a function of them |
| `Diffs.SortingKeeps` | crates/kam-evidence/src/diff.rs:140-148 | sorting loses no change and mentions none twice |
| `DiffOrders.RenderDecides` | crates/kam-evidence/src/diff.rs:73-103 | of two changes of one kind and label, two additions or two removals are not told apart, an addition comes before a removal, and two modifications go by what they say of the attributes |
| `DiffOrders.OrderedByKeyExactly` | crates/kam-evidence/src/diff.rs:115-149 | for all versions the list is in order of kind, label and key, as documented, if and only if among changes of one kind and label none with a later key has a lesser text, or the same text as a removal without being one |
| `DiffOrders.OvertakesExactly` | crates/kam-evidence/src/diff.rs:73-103 | which pairs break the order: never two additions, two removals or an addition with an earlier key than a removal, always a removal with an earlier key than an addition, and two modifications by what they say of the attributes |
| `DiffOrders.WholeDocumentsInOrder` | crates/kam-evidence/src/diff.rs:115-149 | the changes of a new document, or of one that is gone, are always in the documented order |
| `DiffOrders.KeyIsNotTheOrder` | crates/kam-evidence/src/diff.rs:140-148 | two modified symbols of one label, listed with the later key first |
| `Diffs.DiffIsPatch` | crates/kam-evidence/src/diff.rs:115-149 | applying a diff to the old version gives exactly the new version's identities, every attribute the same design fact, the new label of every item mentioned, and the old item where none is |
| `Diffs.DiffInverts` | crates/kam-evidence/src/diff.rs:115-149 | comparing the other way round gives the inverse change for each item, and no others |
| `Diffs.EmptyExactly` | crates/kam-evidence/src/diff.rs:153-155 | a diff is empty if and only if both versions have the same identities and the same attributes |
| `Diffs.RenameIsInvisible` | crates/kam-evidence/src/diff.rs:241-261 | changing only an item's label is no change |
| `Diffs.SameAsSymmetric` | crates/kam-evidence/src/model.rs:53-63 | being the same design fact is symmetric |
| `Diffs.SameIsNotTransitive` | crates/kam-evidence/src/model.rs:53-63 | two steps each too small to report add up to one that is reported |
| `Diffs.SameAsExactly` | crates/kam-evidence/src/model.rs:53-63 | text is compared as it stands, numbers and both coordinates of a point to within a millionth, and values of two kinds differ |
| `Diffs.Extend` | crates/kam-evidence/src/diff.rs:165-173 | folding another diff in loses nothing, keeps the order, and leaves ties as they were |
| `Ledgers.IdempotencyLedger.constructor` | crates/kam-state/src/ledger.rs:58-66 | the capacity is at least one |
| `Ledgers.IdempotencyLedger.ClaimKey` | crates/kam-state/src/ledger.rs:69-81 | the answer and the whole new state of a claim; the queue still lists the keys once each |
| `Ledgers.IdempotencyLedger.CompleteKey` | crates/kam-state/src/ledger.rs:84-89 | the whole new state of a completion |
| `Ledgers.IdempotencyLedger.AbandonKey` | crates/kam-state/src/ledger.rs:93-97 | the whole new state of giving a claim up |
| `Ledgers.IdempotencyLedger.Evict` | crates/kam-state/src/ledger.rs:118-135 | popping, setting aside and pushing back drops the oldest completed keys and keeps the rest in order |
| `Ledgers.WithoutExactly` | crates/kam-state/src/ledger.rs:118-135 | an eviction drops min(completed keys, excess) keys, the oldest completed first; keys in flight stay and the order is kept |
| `Ledgers.EvictedListed` | crates/kam-state/src/ledger.rs:118-135 | in-flight keys are never evicted, and only an overfull ledger loses a key |
| `Ledgers.FreshClaimFits` | crates/kam-state/src/ledger.rs:69-81 | a fresh claim evicts exactly that many, and the ledger outgrows its capacity only by keys in flight |
| `Ledgers.StepEffect` | crates/kam-state/src/ledger.rs:69-97 | what one operation can do to one key's entry |
| `Ledgers.HeldUntil` | crates/kam-state/src/ledger.rs:69-135 | a claimed key nobody gave up stays in flight until completed and remembered until evicted |
| `Ledgers.AtMostOneOwner` | crates/kam-state/src/ledger.rs:69-135 | over every interleaving of operations, two `Fresh` answers for one key are separated by its abandonment, or by its completion and then its eviction |
| `Ledgers.ReplaysTheRecordedValue` | crates/kam-state/src/ledger.rs:69-89 | while a completed key is remembered, a claim is answered with the value recorded |
| `Modes.RestrictedIsLower` | crates/kam-state/src/mode.rs:99-105 | restricting takes the lower tier and commutes if and only if the modes are equal or of different tiers |
| `Modes.RestrictedExactly` | crates/kam-state/src/mode.rs:63-105 | reading only wins over everything, manufacturing over the two modes that may write, and between those the mode held stays |
| `Modes.NextIsLower` | crates/kam-state/src/mode.rs:63-90 | every mode survives storing, and the loop writes exactly when the tier would fall |
| `Modes.ModeGuard.RestrictTo` | crates/kam-state/src/mode.rs:193-210 | whatever other callers do meanwhile, a call returns after losing at most two exchanges, only lowers the tier, and leaves it no higher than requested: reading only if that was asked for or held |
| `Modes.StepKeeps` | crates/kam-state/src/mode.rs:193-210 | no step of any call raises the tier |
| `Modes.ModeNeverRises` | crates/kam-state/src/mode.rs:193-210 | in every interleaving of any number of calls: the tier never rises, what a returned call asked for holds from then on, and it lost at most two exchanges |
| `Modes.FinalTierIsTheMinimum` | crates/kam-state/src/mode.rs:193-210 | once every call has returned, the tier is the lowest of the initial one and all those requested |
| `Modes.FinalModeExactly` | crates/kam-state/src/mode.rs:193-210 | once every call has returned, the mode is reading only if it was or anyone asked for it, else manufacturing if it was or anyone asked for that, else the initial one |
| `Modes.FinalModeIsSettled` | crates/kam-state/src/mode.rs:193-210 | and the mode itself then depends only on the initial mode and on which modes were requested |

## Left out

- Restore: paths of the form a rollback uses for its temporary files are outside
  the "nothing else changed" clauses, because a file already there is overwritten;
  such names are never documents (`TempNeverTracked`).
- Counts of errors and warnings in a finding set: one pass over the findings.
- Append: a call that stops part-way is modelled from its line on (`TearAppend`);
  image files left by a write that failed before it, a stop between compaction and
  eviction, and two documents of which one path is a directory of the other are not.
- IsDir: a directory is there when a file lies below it; empty directories, which
  only a tail with `..` leaves behind, are not modelled.  Links are not followed.
- A journal file that was not written by appends: lines of blanks, lines ended by
  a carriage return.
- The walk that discovers a project's documents for the graph cache, being the
  walk of a capture with other limits: a call starts from the list of paths it
  found, and an unreadable file fails the call.
- Consume: bytes that are not ASCII, which the program decodes chunk by chunk;
  and the times it measures.
- What happens when the evidence store's id counter passes 2^64 - 1.
- The truncation of a finding's digest to 12 hex digits: it is part of the
  assumption that ids are injective.
- Square roots, rounding and not-a-number: distances that cannot be compared do
  not arise over the reals.
- How a number is written in a rendered change: it is any text.
- Error messages, codes, summaries, anchors and one-line renderings other than
  those of a reference and of a change.
- The order in which a rollback lists its failures: they are listed once each.
- Clocks, timestamps and the making of run ids: an appended id is any id not
  given before.
- Reading the mode from text, and what each mode permits: a table.
- `kam-context` budgets, task lists, revision tokens and item counts per kind:
  the suffix and bounded-queue arguments of the store and the caches, again.
- HTTP, async, timeouts, provider requests, tool dispatch, hardware probing and
  the Python harnesses.
