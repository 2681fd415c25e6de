# Verified models of the lo runtime's JavaScript core

lo is a small JavaScript runtime on V8. This project models the parts of it whose correctness is hard to
see by reading, in Dafny, and proves what they promise for every input, every run and every interleaving.
`dafny verify dfyconfig.toml` checks all of it.

| files | what they model |
|---|---|
| `Guards`, `GuardTheorems` | The platform guards of `lib/parse.js`: an evaluation semantics of JavaScript tests in which everything the analysis does not understand is free, and the analysis itself. |
| `Paths`, `PathTheorems`, `Lookup` | The character machine of `lib/path.js`, the second normaliser in `lib/parse.js`, `join`, and where the scanner and the loader of `main.js` look import specifiers up. |
| `Scanner`, `ScannerTheorems` | The worklist of `lib/parse.js` over a possibly cyclic import graph, and what its report means for runs of the scanned program. |
| `Loader`, `LoaderInvariants`, `LoaderTheorems`, `LoaderOutcomes`, `ModuleLoader` | The ES module loader of `main.js` and `lo.cc`: a state machine whose actions are the stretches between awaits, taken in any order, and the same loader as an object. |
| `CallMachine`, `CallWrappers`, `CallWrapperTheorems` | The x64 call wrappers of `lib/ffi.js`, on a machine with registers, memory and calls under the System V AMD64 ABI (sections 3.2.2 and 3.2.3). |
| `ByteText`, `Cpio`, `CpioStreams`, `CpioTheorems`, `CpioContents` | The writer and reader of SVR4 "newc" archives in `lib/cpio.js`. |
| `RingBuffer`, `Commands`, `CommandQueues` | The wrapping ring buffer of `lib/pg.js`, and the commands that move between a shared cache and the pending queues of several sockets. |
| `Messages`, `MessageTheorems`, `Protocol`, `Sending`, `Calling`, `PgSocket`, `Requests` | The PostgreSQL messages of `lib/pg.js` and a server's reading of them (Message Formats in the PostgreSQL frontend/backend protocol), and the send buffer with its partial sends. |
| `Untar`, `UntarTheorems`, `UntarContents`, `UntarPaths` | The tar extractor `lib/untar.js` with its system calls as a log, against the ustar interchange format (POSIX pax), and where its files come to lie. |

Code that works by changing things step by step is a method or a class here, tied by its contract to a
specification function; the theorems are about those functions and about runs of the state machines.

## Where a promise fails, and exactly when

- `lib/parse.js` looks a global up in a plain object, so a guard on an inherited name such as
  `globalThis.toString` counts as known and not true: its branch runs and is reported for no platform
  (`ScanMissesInheritedGuard`). Everywhere else the analysis is sound (`GuardedExactly`, `ScanSound`).
- `lib/parse.js` resolves a relative specifier from the importing file, `main.js` reads every specifier from
  the current directory. They find the same file if and only if the specifier is absolute or the two
  directories are the same once it has climbed (`LookupsAgreeExactly`); then the report covers every run
  (`ReportCoversRuns`), and for every other import there is a program whose run it does not cover
  (`OtherLookupMissed`, `RelativeImportMissed`).
- `lib/path.js` joins in stages as it joins at once, except when the first stage joins nothing and the
  second one starts at the root (`JoinInStagesExactly`).
- `lib/ffi.js` keeps the stack aligned at the call of a slow wrapper, but a fast wrapper calls its target on
  a misaligned stack as soon as it has more than six parameters (`FastcallDelivers`).
- `lib/cpio.js` reads header numbers as signed 32-bit integers: one of 2^31 or more does not come back
  (`HeaderSurvivesExactly`), and behind a path or content of that size the reader goes on before the end of
  the section (`SectionReadExactly`). All archives of a length are read to an end if and only if it is below
  110: every other length has one that is read for ever, with a size that leads back to its header
  (`ReadingEndsExactly`, `ReturningNeverEnds`).
- `lib/cpio.js` reads the six digits that start a file without checking them, so that 068701 is taken for
  070701 (`OtherIdTaken`); of octal digits only 070701 and 070702 are taken (`IdExactly`).
- `lib/pg.js` tests `written < off` before it asks whether a failed send was only blocked, so the way out
  that closes the socket after a real error is never taken (`ClosesExactly`).
- `lib/pg.js` takes the formats from the query and the parameters from the call. With parameters, a server
  reads each in the format it was written in if and only if the statement is named and there is one format
  for all or one for each (`ParamFormatsExactly`, `SurplusParameterRefused`).
- `lib/pg.js` has one-byte names for the first 64 sockets and queries of a program. When the names used after
  that are no numbers, all queries are well named if and only if none is created later (`NamesExactly`). A
  later one is named by NUL, and no server reads its messages as issued (`DecodeEncode`, `UnnamedParse`,
  `UnnamedSelectRefused`).
- `lib/pg.js` sends numbers as 32 bits, which a server reads back if and only if they are from -2^31 to
  2^31 - 1 (`NumberReadExactly`).
- `lib/pg.js` drops the oldest command of a full pending queue. A socket's commands are settled in order if
  and only if nothing was issued on a full queue (`OrderKeptExactly`, `QueueOverflows`), and a dropped one
  never is (`DroppedNeverSettled`). A completion without a pending command breaks the queue (`OnComplete`).
- `lib/untar.js` writes only what lies inside an archive, whatever its bytes are, if and only if the length
  is a multiple of 512 or below 512: any other length has an archive that is written past
  (`WritesInsideExactly`, `CutArchive`).
- `lib/untar.js` tests that the path of a file starts with the name of the first directory. A file named below
  that directory lies under it if and only if the rest of its path does not climb or names again what it has
  left (`BelowTopExactly`, `ClimbingFileAccepted`); directories are not tested
  (`DirectoriesNotTested`).

## Model

| member | source | states |
|---|---|---|
| Guards.FindChainRoot | lib/parse.js:124-130 | The loop down a member chain ends at the member whose object is no member. |
| Guards.NarrowAlong | lib/parse.js:172-194 | The loop over the ancestors computes the recursive narrowing that the guard theorems are about. |
| GuardTheorems.OnLoSound | lib/parse.js:133-168 | A test said to be known on lo has that truth in every evaluation on every platform. |
| GuardTheorems.NotBooleanExactly | lib/parse.js:120-143 | The lookup of a known global yields something that is no boolean exactly for inherited names. |
| GuardTheorems.ConstraintsSound | lib/parse.js:58-114 | Whenever a test can come out true (false) on a platform, that platform is in when_true (when_false). |
| GuardTheorems.PlatformTestConstrains | lib/parse.js:58-114 | On tests built from platform comparisons both answers exist and partition the three platforms. |
| GuardTheorems.PlatformTestExact | lib/parse.js:58-114 | On such tests when_true and when_false are exact: they say precisely on which platforms the test holds. |
| GuardTheorems.MixedExactly | lib/parse.js:58-114 | On tests built with not, and, or and parentheses from platform comparisons and operands that can come out either way, a test can be true (false) on exactly the platforms of when_true (when_false), or on all when there is no answer. |
| GuardTheorems.ComparisonsExactly | lib/parse.js:47-78 | Comparing os, alone or as a property, with linux, mac or win on either side tells that platform from the other two, and can complete on each. |
| GuardTheorems.NarrowingExactly | lib/parse.js:172-194 | On a path of such tests, none of them known on lo, a platform survives the narrowing if and only if a run on it may follow the path. |
| GuardTheorems.RuntimeExactly | lib/parse.js:133-168 | On tests built from globalThis.lo, Deno, Bun and operands that can come out either way, the truth is known exactly when the test can come out one way only. |
| GuardTheorems.RuntimeBranches | lib/parse.js:116-151 | What is under globalThis.Deno or Bun, or a property of them, is reported nowhere and its alternative everywhere; globalThis.lo the other way round. |
| GuardTheorems.NegatedInherited | lib/parse.js:145-149 | A negated inherited global is known to be false: its branch is reported nowhere, the alternative everywhere. |
| GuardTheorems.GuardedExactly | lib/parse.js:172-194 | A platform on which a run can follow the path to a node survives the narrowing if and only if the path takes no branch on an inherited global. |
| GuardTheorems.GuardedIntersects | lib/parse.js:172-194 | Narrowing from any set is the intersection with narrowing from all platforms, on which the worklist relies. |
| GuardTheorems.SitesAdequate | lib/parse.js:224-258 | A run can execute a load or import exactly when it can follow the ancestors' path to one of the places the scan finds. |
| GuardTheorems.ScanSound | lib/parse.js:224-258 | Every load or import a run can execute on a platform is reported for it, in programs without guards on inherited names. |
| GuardTheorems.ScanMissesInheritedGuard | lib/parse.js:120-143 | A concrete program for each inherited name that loads on every platform and is reported for none. |
| Paths.NormalizeString | lib/path.js:23-85 | The one-pass character machine equals a stack of segments split at both slashes, reduced and joined. |
| Paths.TopExactly | lib/path.js:41-43 | The test on the last segment length and last two characters is true exactly when the top segment is not "..". |
| Paths.NormalizePath | lib/path.js:87-98 | normalize equals rendering the reduced stack with the root and trailing slash of the path. |
| Paths.JoinArguments | lib/path.js:100-116 | join normalises its non-empty arguments with slashes between them, or "." without any. |
| Paths.NormalizeImportPath | lib/parse.js:26-39 | The second normaliser equals the same stack reduction on forward slashes. |
| PathTheorems.NormalizeCanonical | lib/path.js:87-98 | Every output is canonical, and the canonical paths are exactly those that normalize leaves alone. |
| PathTheorems.NormalizeIdempotent | lib/path.js:87-98 | normalize(normalize(p)) = normalize(p) for all strings. |
| PathTheorems.RenderReadBack | lib/path.js:87-98 | A written-out reduced stack is read back to the same stack, root and trailing slash. |
| PathTheorems.NormalizeFront | lib/path.js:87-98 | Normalising the front of a path first makes no difference. |
| PathTheorems.JoinInStagesExactly | lib/path.js:100-116 | join(join(a...), b...) = join(a..., b...) if and only if a is not all empty or b does not start at the root. |
| PathTheorems.NormalizeKeepsDestination | lib/path.js:87-98 | A normalised path leads to the same directory as the path, from every directory. |
| PathTheorems.NormalizeComplete | lib/path.js:87-98 | Two paths of one shape have one normal form exactly when they lead to the same place from every directory. |
| PathTheorems.NormalisersAgree | lib/parse.js:26-39 | On backslash-free paths it equals the other normaliser without its trailing slash, with "" for the current directory. |
| PathTheorems.BackslashSeparates | lib/path.js:19-21 | A backslash inside a path separates like a slash for lib/path.js, and is part of a name for lib/parse.js. |
| Scanner.Merge | lib/parse.js:276-286 | The entry becomes the union, and the answer is true exactly when it is new or grew. |
| Scanner.RecordBindings | lib/parse.js:307-309 | Exactly the bindings that the file loads under guards admitting one of its platforms are added. |
| Scanner.FollowImports | lib/parse.js:310-320 | One scan reaches exactly the targets of the file's imports on each platform, and queues those that grew. |
| Scanner.Parse | lib/parse.js:288-330 | It terminates on every import graph, scans a file at most three times (the entry once), fails only for a reachable file that cannot be parsed, and else reports exactly the bindings that chains of imports reach on each platform, and as libraries the files they reach, without the root and a slash. |
| Scanner.SoundStep | lib/parse.js:298-321 | A scan adds nothing that no chain of imports reaches. |
| Scanner.CompleteStep | lib/parse.js:298-321 | After a scan every platform of a file is followed up or still waits in the queue, whatever its stale snapshot says. |
| Scanner.ChainCovered | lib/parse.js:298-321 | With an empty queue everything a chain of imports reaches has been found. |
| Lookup.LookupsAgreeExactly | lib/parse.js:260-274 | The scanner finds the file that the loader reads from the current directory if and only if the specifier is absolute or both start from the same directory once it has climbed. |
| Lookup.BareSpecifiersAgree | main.js:216-232 | With the current directory as root, both find the same file for every specifier without a leading dot segment. |
| Lookup.FromDirectory | lib/parse.js:262-270 | A specifier below a directory is normalised to the names left after it has climbed. |
| Lookup.LocateExactly | lib/parse.js:260-270 | An absolute specifier is walked from the root of the file system, one with a leading ./ or ../ from the importing file's directory, any other from the root of the program; the result is a normal file name. |
| Lookup.KeyFindsFile | lib/parse.js:271-273 | A file is found again, from any importer, by the name it is reported under: what follows the root and a slash, or else its whole name. |
| ScannerTheorems.VisitIsReached | lib/parse.js:288-330 | Where the lookups agree, a file that a run can come to on a platform is reached by the report's chains. |
| ScannerTheorems.ReportCoversRuns | lib/parse.js:1-15 | End to end: when every import of the program is looked up alike, whatever a run on some platform imports is in the report under its name from the root, and what it loads for that platform. |
| ScannerTheorems.OtherLookupMissed | lib/parse.js:260-274 | Every import that is looked up differently has a program in which a run loads what the report does not hold. |
| ScannerTheorems.RelativeImportMissed | lib/parse.js:266-267 | The file /p/s/m that imports ./u in the directory /p, as such a program. |
| ScannerTheorems.LibrariesFound | lib/parse.js:271-273 | Every library of a report, looked up by its name in any file, is a file other than the entry that the program reaches. |
| ScannerTheorems.EntryExactly | lib/parse.js:288-290 | The scan starts from the file that its argument means from the root of the program, or of the file system if it is absolute. |
| ModuleLoader.Loader.constructor | main.js:238 | The loader starts empty. |
| ModuleLoader.Loader.OnModuleLoad | main.js:240-249 | import() returns the registered load or starts and registers one, and ignores an empty specifier. |
| ModuleLoader.Loader.LoadModule | main.js:259-261 | A compiled module gets a new identity and is put into the cache. |
| ModuleLoader.Loader.Evaluate | main.js:275-278 | An evaluated module fulfils the load; else evaluateModule is entered, or refuses a module being linked or evaluated. |
| ModuleLoader.Loader.LoadRequests | main.js:262-267 | The loop skips the cached requests and waits at the first one that is not. |
| ModuleLoader.Loader.ResumeSource | main.js:255-268 | After the await the cache is looked at again before anything is compiled. |
| ModuleLoader.Loader.ResumeRequest | main.js:264-267 | After the await of a request the cache is looked at again. |
| ModuleLoader.Loader.ResumeTurn | main.js:269-278 | A load of a cached module evaluates it one turn later. |
| ModuleLoader.Loader.ResumeEvaluation | main.js:278-281 | The load takes the outcome of the evaluation, which can be a rejection although the module itself is evaluated. |
| ModuleLoader.Loader.RunHandler | main.js:246 | The rejection handler deletes the entry of the specifier. |
| ModuleLoader.Loader.OnModuleInstantiate | main.js:285-296 | Linking takes a cached module or loads one on the spot, and aborts without a source. |
| ModuleLoader.Loader.ReturnFromEvaluate | lo.cc:821-847 | evaluateModule throws the error of an evaluation rejected already, else hands over its result. |
| LoaderInvariants.StepInv | main.js:238-296 | Every action keeps the invariant: the cache is a bijection, moduleLoads holds exactly the unhandled loads, statuses fit the stack. |
| LoaderInvariants.EvaluateInv | main.js:275-278 | With nothing on the stack a call of evaluateModule is never refused. |
| LoaderTheorems.RunInv | main.js:238-296 | The invariant holds in every state of every run. |
| LoaderTheorems.RunGrows | main.js:238-296 | Over any stretch of a run nothing settled or cached is taken back. |
| LoaderTheorems.CompiledOnce | main.js:251-296 | Over every interleaving each specifier is compiled at most once and no module body runs twice. |
| LoaderTheorems.CachePermanent | main.js:251-296 | A cache entry, once set, is never replaced. |
| LoaderTheorems.EvaluationNeverNests | lo.cc:785-799 | evaluateModule is called only with an empty stack and no module mid-way, and its refusal is never reached. |
| LoaderTheorems.OneLiveLoad | main.js:238-249 | Of two loads of one specifier one was rejected and dropped. |
| LoaderTheorems.ImportShares | main.js:240-249 | Concurrent imports share the registered promise; a new load starts only when all earlier ones were rejected and dropped. |
| LoaderTheorems.HandlerDropsItsOwnLoad | main.js:246 | The delete in a rejection handler removes the very load that registered it. |
| LoaderTheorems.FulfilledPermanent | main.js:240-282 | A fulfilled load stays registered for good, with the namespace of the cached, evaluated module. |
| LoaderTheorems.ErroredNeverFulfils | main.js:234-237 | Every import of a module whose code threw fails, before and after. |
| LoaderTheorems.CallsBounded | main.js:275-281 | Calls of evaluateModule for a specifier never exceed one plus its rejected loads. |
| LoaderOutcomes.EvaluatedFulfils | main.js:278-281 | When the promise of the evaluation is fulfilled, the import is fulfilled with the namespace of the module cached for its specifier, which is recorded as evaluated. |
| LoaderOutcomes.RejectedExactly | main.js:251-282 | A pending import fails at a step if and only if that step brings it no source, a source that does not compile for a specifier without a module, failed linking, an exception, or a rejected evaluation. |
| LoaderOutcomes.ResumeExactly | main.js:255-281 | A load that goes on waits for the first request without a module; with none left, or with its module cached meanwhile, it is fulfilled by a module recorded as evaluated or calls evaluateModule, linking an unlinked module. |
| LoaderOutcomes.ImportStarts | main.js:251-274 | A load is started only by import() of a specifier that is not empty; it takes the cached module one turn later, or fetches the source. |
| LoaderOutcomes.CompilesExactly | main.js:257-266 | A module is added exactly when a source that compiles arrives for a specifier without a module, and is cached under that specifier. |
| LoaderOutcomes.AbortsExactly | main.js:285-296 | The process aborts exactly when linking asks for a specifier without a module whose source cannot be had or compiled. |
| LoaderOutcomes.OthersUntouched | main.js:238-296 | A load changes only by an action that concerns it. |
| LoaderOutcomes.StatusesExactly | lo.cc:785-847 | Which action changes the status of a module to what, whose body it enters, and when its record says evaluated. |
| LoaderOutcomes.ImportSucceeds | main.js:234-282 | From every reachable state with an empty stack an import of a specifier without a load and a module can succeed, also after failed fetches. |
| CallWrappers.StackSize | lib/ffi.js:60-64 | A multiple of 16 that has room for the parameters past the sixth. |
| CallWrappers.EmitSlowParam | lib/ffi.js:76-102 | One round of the loop emits the code of one parameter and keeps the two offsets in step with it. |
| CallWrappers.CompileSlowcall | lib/ffi.js:67-117 | The emitted code is the specified instruction list. |
| CallWrappers.EmitFastParam | lib/ffi.js:131-169 | One round of the loop emits the code of one parameter and keeps the two offsets in step with it. |
| CallWrappers.CompileFastcall | lib/ffi.js:119-183 | The emitted code is the specified instruction list, or the target itself without parameters and unwrapping. |
| CallWrapperTheorems.SlowParamsPlace | lib/ffi.js:76-102 | After n rounds the first n parameters are in their places and nothing else has changed. |
| CallWrapperTheorems.SlowcallDelivers | lib/ffi.js:67-117 | For every signature without floats: no fault, one call, each of the first 30 parameters taken from its slot by the ABI, the result in slot 0, rbx and rsp restored, stack aligned at the call, and no access outside the slots and its own stack. |
| CallWrapperTheorems.FastParamsPlace | lib/ffi.js:131-169 | The arguments are shifted down by one without reading an overwritten source. |
| CallWrapperTheorems.FastcallDelivers | lib/ffi.js:119-183 | For every such signature with a receiver: one call with each of the first 30 arguments shifted down by one and, of the first three, arrays and strings unpacked, and a return with rsp and result in place; the stack is aligned exactly with at most six parameters. |
| CallWrapperTheorems.FastAndSlowAgree | lib/ffi.js:67-183 | When slot i + 1 holds fast argument i, both wrappers call the same target with the same first 30 parameters. |
| CpioTheorems.HexField | lib/cpio.js:209-219 | An eight-digit hexadecimal field is read as the number it was written for, taken as a signed 32-bit integer. |
| CpioTheorems.ToInt32Exactly | lib/cpio.js:209-219 | It is the same number exactly below 2^31. |
| CpioTheorems.HeaderSurvivesExactly | lib/cpio.js:244-259 | The header numbers come back unchanged if and only if all are below 2^31. |
| CpioTheorems.SectionLength | lib/cpio.js:355-394 | Every section has a length that is a multiple of four. |
| CpioTheorems.SectionRead | lib/cpio.js:240-275 | A section at an aligned offset is read as its entry, up to its end. |
| CpioTheorems.SectionReadExactly | lib/cpio.js:240-275 | A section is read as its entry, up to its end, if and only if its path and content are below 2^31 bytes; otherwise the reader goes on before the end. |
| CpioTheorems.ReadingEndsExactly | lib/cpio.js:240-277 | All archives of a length are read to an end (files, an error, or a text outside the archive) if and only if the length is below 110. |
| CpioTheorems.ReturningNeverEnds | lib/cpio.js:232-277 | For every other length, an archive of one header and zeros whose size, -112, leads back to its start for ever. |
| CpioTheorems.ReadingEnds | lib/cpio.js:240-277 | Reading ends, within a round for each byte, when no header read has a negative size. |
| CpioTheorems.FullSectionNeverEnds | lib/cpio.js:240-277 | A regular file that fills up 2^32 bytes with its header leads the reader back to its start for ever. |
| CpioTheorems.RoundTrip | lib/cpio.js:197-404 | Reading an archive gives back its entries in order, numbered from 1, with type, permissions, path and data or target, in one round for each and one for the trailer. |
| CpioContents.ArchiveContents | lib/cpio.js:197-404 | Reading an archive gives a file for every entry up to the first called TRAILER!!!: the k-th has inode k, the permission bits of its type and exe flag, its device numbers, time, sizes, path and content, each spelled out. |
| CpioContents.FileReflects | lib/cpio.js:309-370 | One file read back, bit by bit: all execute bits if and only if exe or a directory, reading for everyone, writing for the owner, and for the group where the source says so. |
| CpioContents.DigitsExactly | lib/cpio.js:178-195 | Numbers are written in lower-case hexadecimal digits; both cases are read and no other byte is a digit. |
| CpioContents.ModeExactly | lib/cpio.js:144-154 | The kind of a file is the digit above its permissions, which are the nine bits below. |
| CpioContents.IdExactly | lib/cpio.js:199-207 | Six octal digits start a file if and only if they are 070701 or 070702. |
| CpioContents.OtherIdTaken | lib/cpio.js:199-207 | Six other characters can be taken too: 068701 reads as 070701. |
| CpioContents.TextExactly | lib/cpio.js:221-224 | A text is refused exactly when it would end beyond the archive; inside it has its size, and with a negative size it ends at the next NUL. |
| CpioContents.ViewExactly | lib/cpio.js:232-235 | The laws of a view: counted from the end below zero, cut to the archive, empty when it ends before it starts. |
| CpioContents.OddNumbers | lib/cpio.js:209-219 | A header number beyond the archive is 0, and one that ends in no digit is -1. |
| CpioContents.AlignedExactly | lib/cpio.js:226-230 | The next multiple of four, or below zero the one after it. |
| CpioContents.PaddingIsZero | lib/cpio.js:387-393 | What is neither header nor content of a section is zero. |
| CpioStreams.Reader.ReadHex8 | lib/cpio.js:209-219 | Eight digits are consumed and combined by the digit table. |
| CpioStreams.Reader.ReadString | lib/cpio.js:221-224 | A string and its NUL are consumed; the string is what decode_latin1 reads, past the end an error, and up to a NUL with a negative size. |
| CpioStreams.Reader.ReadBuffer | lib/cpio.js:232-235 | The offset moves by the size, also back, and the view is the subarray between, counted from the end where negative. |
| CpioStreams.Reader.Align | lib/cpio.js:226-230 | The offset moves to a multiple of four, the next one unless it is negative. |
| CpioStreams.Reader.ReadNext | lib/cpio.js:240-275 | One round of the loop reads one file or finds the trailer, and moves the offset behind it. |
| CpioStreams.ParseCpio | lib/cpio.js:197-277 | The loop over the shared offset collects the files that the specified reader finds in as many rounds, or has not finished by then. |
| CpioStreams.Writer.Fill | lib/cpio.js:387-393 | The buffer holds the header text, the payload at a multiple of four, and zeros else. |
| CpioStreams.Writer.CreateEntry | lib/cpio.js:355-394 | The length added up by the closures is that of the section, which is then filled in. |
| CpioStreams.Writer.Build | lib/cpio.js:396-403 | The sections concatenate to the archive, or the first regular file without content is refused. |
| RingBuffer.RingBuffer.Push | lib/pg.js:352-356 | With 16-bit wrapping indices the buffer behaves as a queue of 65536 that drops its oldest element when full. |
| RingBuffer.RingBuffer.Shift | lib/pg.js:358-361 | The oldest element leaves; shifting an empty buffer leaves it with length -1. |
| CommandQueues.Queues.GetCommand | lib/pg.js:376-386 | The oldest cached command is reused and overwritten, else a new one made. |
| CommandQueues.Queues.Submit | lib/pg.js:477-493 | On the ring buffers of several sockets and their cache: getCommand and the push do one step of the command machine. |
| CommandQueues.Queues.OnComplete | lib/pg.js:407-428 | A completion shifts the oldest pending command of the socket, settles it and pushes it to the cache; without one it leaves the queue at length -1, and settles and caches what the slot held before, if anything. |
| CommandQueues.Queues.OnErrorResponse | lib/pg.js:400-406 | An error settles the oldest pending command, and does nothing without one. |
| Commands.IssueInOrderExactly | lib/pg.js:352-386 | Issuing keeps the order of every other socket, and that of its own if and only if fewer than 65536 are outstanding. |
| Commands.SettleOrdered | lib/pg.js:400-428 | A completion settles the oldest command that was not dropped, and leaves every other socket as it was. |
| Commands.RunInv | lib/pg.js:374-428 | No command is in two queues, twice in one, or in a queue and the cache, in every state of every run. |
| Commands.RunOrdered | lib/pg.js:352-428 | Over every run, overflows included, the settled and waiting commands of a socket are the issued ones without the dropped, in order. |
| Commands.OrderKeptExactly | lib/pg.js:352-428 | Over every run the order of a socket is kept if and only if nothing was issued on a full queue of it. |
| Commands.SettledInOrder | lib/pg.js:400-428 | Over every run without that, however sockets interleave, the k-th completion of a socket settles its k-th command. |
| Commands.DroppedNeverSettled | lib/pg.js:352-356 | Only kept commands are settled, and one that was dropped is never kept again. |
| Commands.QueueOverflows | lib/pg.js:352-386 | A run that fills a queue and loses the order with one more command. |
| Commands.CommandsReused | lib/pg.js:374-386 | A command object is made exactly when a query is issued with an empty cache; else the one cached first is used again, and a settled one is cached last. |
| Commands.NoneLost | lib/pg.js:374-430 | Over every run in which no queue overflows each command object ever made is in the cache or in one socket's queue, in one place only. |
| Protocol.NameIndex.GetId | lib/pg.js:27-40 | The next of 64 one-byte names, or the own name of the socket or query when they have run out. |
| Protocol.NamesExactly | lib/pg.js:27-53 | When the names used after the first 64 are no numbers, no two queries share a statement name and none is NUL if and only if no query is created after 64 sockets and queries. |
| Protocol.NamesSpelled | lib/pg.js:27-40 | The 64 names in order: A to Z, a to z, 0 to 9, - and +, and then the own name. |
| Protocol.Protocol.Parse | lib/pg.js:104-123 | The bytes written are the encoding of the Parse message, and those before it stay. |
| Protocol.Protocol.Describe | lib/pg.js:125-135 | The bytes written are the encoding of the Describe message. |
| Protocol.Protocol.Bind | lib/pg.js:137-201 | The bytes written are the encoding of the Bind message, its length filled in last. |
| Protocol.Protocol.PutParams | lib/pg.js:160-174 | Numbers and texts are written with their lengths, by the format of each. |
| Protocol.Protocol.PutFields | lib/pg.js:175-198 | The loop over the columns decides between no code, one code and one for each. |
| Protocol.Protocol.Exec | lib/pg.js:203-215 | The bytes written are the encoding of the Execute message. |
| Protocol.Protocol.Flush | lib/pg.js:217-223 | The bytes written are the encoding of the Flush message. |
| Protocol.Protocol.Sync | lib/pg.js:225-231 | The bytes written are the encoding of the Sync message. |
| MessageTheorems.DecodeEncode | lib/pg.js:104-231 | A server reads a message that its fields can hold as what was issued (name, statement, types, formats, values, result codes, row limit) if and only if its statement is not named by NUL and, in a Bind message, there is at most one format or one for each parameter. |
| MessageTheorems.UnnamedParse | lib/pg.js:104-123 | A Parse message named by NUL is refused unless its length happens to fit the start of the statement as a count, and then it is read as an empty statement. |
| MessageTheorems.UnnamedSelectRefused | lib/pg.js:104-123 | SELECT 1 named by NUL, as a message that the server refuses. |
| MessageTheorems.NumberReadExactly | lib/pg.js:163-167 | A server reads a binary number back if and only if it is from -2^31 to 2^31 - 1. |
| MessageTheorems.ParamFormatsExactly | lib/pg.js:137-174 | With parameters, the server accepts the Bind message and reads every parameter in the format it was written in if and only if the statement is named and there is one format or one for each. |
| MessageTheorems.SurplusParameterRefused | lib/pg.js:137-174 | Three parameters under two formats, as a message that the server refuses. |
| MessageTheorems.ResultFormatsKept | lib/pg.js:175-198 | The result codes give each column the format it was compiled with. |
| MessageTheorems.FramesExactly | lib/pg.js:104-231 | A stream of messages splits by its length fields into exactly the messages. |
| Sending.ClosesExactly | lib/pg.js:444-475 | A send closes the socket exactly when it takes nothing; every error waits. |
| Sending.FlushExactly | lib/pg.js:444-475 | A flush offers the whole buffer unless one waits or there is nothing; the bytes that count as accepted are those the send took, and the outcome follows from that number. |
| Sending.ResumedExactly | lib/pg.js:464-468 | A writable socket ends the wait, and what waited is offered again. |
| Sending.FlushKeeps | lib/pg.js:444-475 | A full, partial, refused or failed send loses and duplicates no byte, and a started flush keeps its handler and something to send. |
| Sending.RunConserves | lib/pg.js:431-494 | Over every run of writes and sends, the accepted bytes followed by the buffered ones are all messages written, in order. |
| Sending.ReceivedExactly | lib/pg.js:444-475 | However sends cut the stream, the complete frames that have arrived are a prefix of the messages, and all of them at the end. |
| Sending.ServerReads | lib/pg.js:431-494 | End to end: at every moment the server has received the first k issued messages and nothing else, reads each as what was issued if and only if its statement is named and its count of formats fits, and has all once nothing is unsent. |
| Calling.StepInv | lib/pg.js:431-515 | Every call, answer and send keeps unsent bytes moving: in a waiting flush, or behind a command whose answer brings the next one. |
| Calling.NothingLeftBehind | lib/pg.js:431-515 | Over every run, with bytes unsent and no flush under way on an open socket, a command that was sent whole still waits for its answer. |
| Calling.EventExactly | lib/pg.js:431-513 | What each event writes, sends and settles: a call sends only with no other command pending, a compilation and a read always. |
| PgSocket.PGSocket.constructor | lib/pg.js:389-399 | The connection starts with an empty buffer of 64 KiB. |
| PgSocket.PGSocket.Flush | lib/pg.js:444-475 | One flush does what the send machine does, moving what was not sent to the front of the buffer. |
| PgSocket.PGSocket.OnWritable | lib/pg.js:464-468 | The handler ends the wait and flushes again. |
| PgSocket.PGSocket.Compile | lib/pg.js:431-442 | Parse, Describe and Flush are appended and flushed. |
| PgSocket.PGSocket.Call | lib/pg.js:477-494 | Bind, Execute and Sync are appended, and flushed when no command is outstanding. |
| Requests.CompileUnderstood | lib/pg.js:431-442 | A server understands one compilation as Parse with the statement and its parameter types, Describe of the same name, and Flush. |
| Requests.CallUnderstood | lib/pg.js:477-494 | A server understands one call as Bind of the arguments with their formats, Execute of the same portal, and Sync. |
| Untar.GetOctal | lib/untar.js:9-22 | The two loops skip to the first octal digit and add up the digits from there. |
| Untar.IsLastBlock | lib/untar.js:25-28 | True exactly when all 512 bytes are zero. |
| Untar.VerifyChecksum | lib/untar.js:30-40 | True exactly when the weights of the block add up to its checksum field. |
| Untar.WalkData | lib/untar.js:85-106 | The loop over the data advances by whole blocks, writes once with the full size, and fails exactly when the archive ends first. |
| Untar.Untar | lib/untar.js:52-111 | It finishes on every input with the result and the calls of the specified walk; off + size = buf_size is its loop invariant. |
| UntarTheorems.OctalReads | lib/untar.js:9-22 | Every numeric header field, with leading spaces and a space or NUL after it, is read as its number. |
| UntarTheorems.HeaderReads | lib/untar.js:61-68 | A valid ustar header is accepted and its path, mode, size and type are read. |
| UntarTheorems.WalkExtracts | lib/untar.js:52-111 | On every archive of valid headers: the calls of its members in archive order, each non-empty file storing exactly its data, up to the first file outside the first directory. |
| UntarTheorems.WritesFit | lib/untar.js:85-106 | On any bytes: each write is of the file just opened, starts after its header, has the stated size, and lies inside an archive of whole blocks. |
| UntarTheorems.WritesInsideExactly | lib/untar.js:52-111 | Every write of every archive of a length lies inside it if and only if the length is a multiple of 512 or below 512. |
| UntarTheorems.CutArchive | lib/untar.js:88-106 | For every other length, an archive of zeros and one valid header whose file is written past the end. |
| UntarTheorems.CutMemberOverruns | lib/untar.js:88-106 | A member cut inside the last block of its data is written whole before the error. |
| UntarTheorems.FilesUnderTop | lib/untar.js:74-81 | On any bytes: files opened after the first directory start with its name, and that name is the result. |
| UntarContents.KindExactly | lib/untar.js:66-79 | Type 5 is a directory; 1 to 4, 6 and g are skipped; everything else is a file. |
| UntarContents.OctalExactly | lib/untar.js:9-22 | On any text a number is what its first run of octal digits stands for. |
| UntarContents.ChecksumExactly | lib/untar.js:30-40 | A header is taken exactly when its checksum is the sum of all other bytes and of eight spaces. |
| UntarContents.CorruptHeaderRefused | lib/untar.js:60-61 | A valid header in which one byte outside the checksum is changed stops the extraction, with nothing done for it. |
| UntarContents.EscapeExactly | lib/untar.js:42-63 | A backslash is put before every space of a name, and nothing else changes. |
| UntarContents.PathSpelled | lib/untar.js:62-75 | The path of a member is its name, after the prefix and a slash if there is one. |
| UntarContents.ExtractionExactly | lib/untar.js:52-84 | Extraction is refused if and only if a file after the first named directory has a path that does not start with that directory's; else it returns that name. |
| UntarPaths.LiesUnderExactly | lib/untar.js:74-84 | A path lies under another, from every directory, if and only if its resolved names start with those of the other. |
| UntarPaths.BelowTopExactly | lib/untar.js:81 | A file named below the first directory is accepted, and lies under it if and only if the rest of its path does not climb or names again what it has left. |
| UntarPaths.ClimbingFileAccepted | lib/untar.js:81 | After the directory a, the file a/../../x is accepted and leaves it. |

## Left out

- Parsing by acorn: the scanner's model starts from syntax trees; string_value and the loader names are part of the tree.
- The warnings of `lib/parse.js` and the order of its results, which are sets and maps here.
- A symbolic link or a directory listing that changes while `lib/parse.js` scans: files are a fixed map.
- The semantics of tests takes every `os` reference to be the current platform and everything else the analysis does not know to be free at each evaluation.
- V8 itself: compiling, linking and evaluating are the status changes of modules, and which one happens next is arbitrary.
- Loader hooks, `require`, `unloadModule` and user code that calls `lo.evaluateModule`, `lo.loadModule` or `lo.runMicroTasks`.
- ScannerTheorems.ReportCoversRuns: the loader's lookup is the path from the current directory; builtins, which it tries first, and `LO_HOME`, which it tries last, are not modelled, nor are symbolic links, and files are named from the root of the file system.
- Deadlock of top-level awaits and the order of microtasks: every order of resumptions is allowed, so nothing is said about fairness.
- The export `then` of a namespace, which would make a load adopt it as a promise.
- Float parameters, struct parameters, wrappers without a receiver, callbacks and the arm64 back end of `lib/ffi.js`.
- CallWrapperTheorems.SlowcallDelivers: memory is in whole words of eight bytes and an instruction list stands for its encoding, because the assembler is not part of this model.
- Suid, sgid and sticky bits, a preset `size`, and characters beyond one byte in `lib/cpio.js`.
- CpioStreams.Reader.ReadString: a text from memory before the archive, or without a NUL in it, is undetermined, and the length limit of strings is not modelled.
- CpioStreams.ParseCpio: takes a bound on its rounds, because the source need not end; ReadingEndsExactly, ReadingEnds and FullSectionNeverEnds say when it does.
- CpioStreams.Writer.CreateEntry: numbers of 2^32 or more, which would not fit eight digits, are excluded.
- CpioStreams.Writer.Build: the same numbers are excluded.
- `RingBuffer.at`, startup, login and generated readers of `lib/pg.js`, and the parser of server messages.
- CommandQueues.Queues.OnComplete: after a completion without a pending command nothing is promised of later calls.
- Protocol.Protocol.Bind: parameters fit their formats and texts have one byte a character; numbers and texts of the wrong kind would be converted by JavaScript, and parameters without any format throw.
- Protocol.Protocol.PutParams: parameters fit their formats, as for Bind.
- Protocol.NamesExactly: what a name is as a number is an input.
- What a server checks against the statement itself, such as the number of parameters it needs.
- PgSocket.PGSocket.Compile: messages fit the buffer; writing past its end throws in the source.
- PgSocket.PGSocket.Call: messages fit the buffer, and the arguments their formats.
- PgSocket.PGSocket.Flush: what a send takes is an input, never more than it was given; the commands waiting for answers are modelled in CommandQueues.
- Untar.Untar: system calls succeed, `open` never returns descriptor 0, a path is bytes without decoding, the prefix ends at the end of the archive at the latest, and files without data stay open as in the source.
- File, terminal, network and build code of the repository that only forwards to foreign libraries.
