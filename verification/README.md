# A verified model of elephc's compile-time algorithms

elephc compiles PHP to native code. This project models the self-contained algorithms that
the compiler's correctness rests on and proves what each is for. Every module names the source
file it models. `dafny verify dfyconfig.toml` checks the whole project.

## What is modelled

**Control-flow verdicts** (`Ast`, `Termination`, `BigStep`, `Outcomes`, `TerminationSound`,
`TerminationPrecise`, `TerminationJumps`).
`Termination` is the analysis of `src/termination.rs`: terminal effects, exit guarantees and the
two jump scans. `BigStep` gives the same statements a big-step relation in which undecided
conditions may come out either way and opaque code may throw or exit; a switch is a jump target
for `break` and `continue`, as in the code generator. `Outcomes` computes the outcomes of a
statement and is proved to agree with the relation in both directions, so every claim about runs
is a claim about sets of outcomes. The documentation in `src/termination.rs` calls a verdict
"guaranteed"; the code is looser. A do-while is accepted as soon as its body contains an exiting
statement, even one behind a `break` or `continue`, and the terminal effect of a switch does not
look at conditional breaks inside its arms. `Ordered` is the syntactic condition under which all
verdicts are right; `DoWhileVerdictFails` and `SwitchVerdictFails` say exactly when an accepted
loop or switch completes anyway, and three small programs show it. Where conditions are undecided the
verdicts are also precise: `EffectIsExact` and `ExitGuaranteeIsExact` are equivalences. Where nothing is
dead, so are the jump scans: `ScansAreExact`.

**Glob matching** (`Glob`, `GlobExact`, `GlobLimits`). The single-backtrack-point matcher of
`src/autoload/index.rs` against a declarative meaning of `?`, `*` and `**`. It is sound for every
pattern, and it decides matching for precisely the patterns that `Resolvable` describes. The
pattern `**/*` is not one of them: the matcher rejects `a/b`.

**Callable effects** (`Effects`, `EffectReachability`). The fixed-point loop of `src/optimize.rs`
over three effect maps and three slots, for every monotone body analysis, and for call graphs the
equivalence of the result with reachability.

**Runtime cache** (`Digits`, `CacheKey`, `CacheName`, `RuntimeCache`, `RuntimeCacheRuns`). The cache
file name and its hash, and the check, write, assemble, rename protocol of `src/runtime_cache.rs` as a
state machine over a shared directory with any number of interleaved runs, each of which may fail
wherever the code handles a failure, or stop for good. `RuntimeCacheRuns` says what a run answers and
why, that a run which has met no failure can always finish, and that it can meet every failure that is
still ahead of it.

**Poll reactor** (`ReactorTurns`, `Reactor`). The event loop of `showcases/http-server/server.php`, with
its pool of connections and its `pollfd` memory, against an environment that reports about the
descriptors asked about, and never hands out one that is still open. `ReactorTurns` says as a function
of the system's answers what every turn makes of every connection; `Reactor` is the loop, proved to do
just that and to keep descriptor table, slots and poll records in step.

**Autoload rounds** (`Autoload`, `AutoloadRun`). The collect-and-splice loop of
`src/autoload/mod.rs` against the simple interleaving it stands for.

**Autoload rules** (`FoldIfs`, `FoldDecided`, `Registration`, `RegistrationRun`, `RegistrationText`,
`RegistrationQueue`, `RegistrationNames`, `RegistrationCleaned`, `RegistrationMasked`,
`RegistrationIdentity`, `RegistrationPhp`, `Interpret`, `InterpretSound`, `InterpretComplete`). Flattening of
decided `if`s, collection of register calls and symbolic execution of the closures (`src/autoload/rule.rs`,
`src/autoload/interpret.rs`). Closures and guards run in one reference semantics in which everything
outside the supported subset behaves as an arbitrary world decides, and with operators and conversions of
its own. The fold is right, and it is complete: `FoldedExactly`, `ResolvedExactly` and `DecidedExactly` say
exactly what is folded. The rule chain is compared with
the queue that a run of the program builds. The documentation in `src/autoload/rule.rs` calls the
chain PHP-equivalent; the code is not always. It misses loaders that reach the call through a copied
variable or a function name in a variable, names in another letter case and names with a namespace,
it takes a namespaced function for a global one, it strips two backslashes where PHP allows one, and
it reads the flag `"1"` as false.
`RegistrationText` says for every call, by the text of the program, which loader the collection hears
(`HeardExact`) and which one the run registers (`MeantExact`): the last assignment to a variable,
followed through copies, and the last declaration of a name. In these terms `ThroughoutExact` says
exactly when chain and queue agree all along, and `MissedExact` when they agree in the end. Likewise
the statements left after the collection can register a loader that the program never registers
(`MaskedLoaderIsRegistered`); `LeftoverExact` says when they register nothing. PHP moreover registers
a callable only once and unregisters that callable, where the code compares rules:
`ThroughoutAsPhp` says exactly when that makes no difference to the chain, `RepeatsExact` when
registering a callable again makes no difference to what is resolved.

**Constant pool and callable descriptors** (`DataSection`, `DataEmission`, `SectionReader`,
`CallableDescriptor`, `DescriptorBuilder`, `DescriptorReadback`). Interning as functions on a pool, the class that keeps
entry lists and deduplication maps in step, the printed section with a reader for it, and the records of
`src/codegen/callable_descriptor.rs` with a reader that recovers them. `encode_negated_default`
passes anything but a number literal back to the general encoder, which loses that negation: a
default written `-(-1)` is recorded as `-1`. A string default is recorded as the UTF-8 of its literal,
which keeps a byte above ASCII as a private-use character: the default `"\xff"` is recorded with three
bytes. `DefaultEncodingExact` says for which defaults the record is right.

**Labels** (`Utf8`, `Names`, `Symbols`, `SymbolsExact`). Mangling (`src/names.rs`) with its decoder, and exactly
which two symbols share a label. Class/member labels are not injective: class `A` with method `u_B`
and class `A_u` with method `B` collide, and `SharedTextExact` describes every such collision.

**Byte strings** (`StringBytes`). `src/string_bytes.rs`, with UTF-8 as in section 3 of RFC 3629.

**Class lattice** (`ClassLattice`). The common-object-type computation of `src/codegen/context.rs`
on hierarchies without cycles.

## Model

| member | source | states |
|---|---|---|
| Termination.MergeTerminalEffects | src/termination.rs:451-478 | The flag-keeping loop merges to one effect, falling through as soon as one branch does and mixed when branches disagree |
| Termination.SwitchTerminalEffect | src/termination.rs:483-509 | The reverse walk with `suffix_exits` computes the recursive meaning of falling through into exiting arms |
| Termination.BlockMayLeaveCurrentSwitchBeforeFunctionExit | src/termination.rs:215-225 | The loop finds a jump that comes before the first exit-guaranteeing statement |
| TerminationSound.ScansAreSound | src/termination.rs:229-411 | With no side condition, a negative answer of either scan at any depth excludes every run that breaks (or continues) that far |
| TerminationSound.AcceptedStatementNeverCompletes | src/termination.rs:42-191 | Under the ordering condition no finite run of a statement with an exit guarantee or a terminal effect completes normally, through nested loops, switches and try/finally |
| TerminationSound.AcceptedBodyLeavesTheFunction | src/termination.rs:28-30 | An accepted body whose jumps stay inside can only return, throw or exit |
| TerminationSound.TerminatingIndex | src/termination.rs:33-39 | The statement that the block's effect comes from is the first one that does not fall through |
| TerminationSound.BlockEndsAtItsTerminator | src/termination.rs:33-76 | A block has exactly the runs of its prefix up to that statement |
| TerminationSound.DoWhileVerdictFails | src/termination.rs:121-124 | An accepted do-while completes exactly when its body can break out, or continue to a test that may fail |
| TerminationSound.SwitchVerdictFails | src/termination.rs:483-509 | A switch said to exit completes exactly when some entry into its arms jumps out of it |
| TerminationSound.BreakBeforeReturn | src/termination.rs:28-30 | `do { break; return; } while (false)` is accepted and completes |
| TerminationSound.ContinuePastInfiniteLoop | src/termination.rs:117-124 | A `continue 2` out of an infinite loop inside an accepted do-while completes |
| TerminationSound.ConditionalBreakInArm | src/termination.rs:483-509 | A switch with a conditional break in an exiting arm is said to exit and completes |
| TerminationPrecise.EffectIsExact | src/termination.rs:42-76 | On statements with undecided conditions and reachable catches, a terminal effect is reported if and only if no run completes |
| TerminationPrecise.BreakIsReal | src/termination.rs:33-48 | A block said to break, always or on some path, has a run that breaks |
| TerminationPrecise.ReturnIsOverlooked | src/termination.rs:42-76 | A namespace block or do-while that returns is said to fall through, although it never completes |
| TerminationPrecise.ExitGuaranteeIsExact | src/termination.rs:80-191 | With namespace blocks, exit calls, do-while and infinite loops: where branches are undecided and the jumps that the scans see can be reached, the exit guarantee holds if and only if every finite run leaves the function |
| TerminationJumps.ScansAreExact | src/termination.rs:229-411 | Where nothing is dead, either scan answers at every depth whether some run breaks (or continues) that far |
| TerminationJumps.LiveBreakIsReachable | src/termination.rs:229-317 | A break that the scan sees in a live loop body ends some run of the body |
| TerminationJumps.LiveJumpIsReachable | src/termination.rs:215-225 | So does a jump that is seen before every exit of a live arm |
| TerminationJumps.InfiniteLoopExact | src/termination.rs:117-120 | An infinite loop with a live body is taken for an exit exactly if no run leaves it by a break |
| TerminationJumps.ExitCallsExact | src/termination.rs:139-148 | Calls of `exit` and `die`, in any letter case, are the calls that are taken for exits and the ones that never complete |
| TerminationJumps.SwitchExitIsSound | src/termination.rs:173-191 | A switch that is taken for an exit never completes, if the arms are in order and the first statement of each that guarantees an exit does not itself jump out of the switch |
| TerminationJumps.TruthyExact | src/termination.rs:195-205 | Of the bool, int, float and string literals exactly the true ones count as truthy conditions |
| TerminationJumps.FloatZeroExact | src/termination.rs:199 | A float literal is zero for the two bit patterns of zero and no other |
| TerminationJumps.MergeExact | src/termination.rs:451-478 | Branches merge to a break or an exit exactly when all of them agree on it, and fall through exactly when one of them does or there is none |
| Glob.GlobMatchBytes | src/autoload/index.rs:404-453 | The backtracking loop terminates by a lexicographic measure and gives the verdict of the state machine it runs |
| Glob.SmallPatternsExact | src/autoload/index.rs:409-446 | `?` matches one byte but a slash, `*` what has no slash, and `**` everything |
| Glob.PlainPatternExact | src/autoload/index.rs:424-429 | A pattern without wildcards matches itself only |
| GlobExact.MatcherIsSound | src/autoload/index.rs:409-452 | Every positive answer is a match in the declarative sense |
| GlobExact.MatcherIsComplete | src/autoload/index.rs:409-452 | For a resolvable pattern every matching path is accepted, by an exchange argument on the last star |
| GlobLimits.UnresolvableMisses | src/autoload/index.rs:433-446 | Every other pattern has a matching path that is rejected |
| GlobLimits.ExactlyTheResolvablePatterns | src/autoload/index.rs:404-453 | The matcher decides matching on all paths if and only if the pattern is resolvable |
| GlobLimits.SingleStarsResolve | src/autoload/index.rs:421-446 | Patterns without adjacent stars are resolvable |
| GlobLimits.DoubleStarsResolve | src/autoload/index.rs:414-446 | Patterns with only `**`, whose slash is never followed by a rest that can match nothing, are resolvable |
| GlobLimits.DirectoryThenFileRejected | src/autoload/index.rs:433-446 | `**/*` does not accept `a/b` |
| Effects.ActiveEffects.RefineAll | src/optimize.rs:255-283 | One loop over a map refines every callable under the installed snapshot, in any order, and reports change exactly |
| Effects.ActiveEffects.RunRound | src/optimize.rs:242-287 | A round is one simultaneous refinement of all three maps, and the slots are restored |
| Effects.ActiveEffects.ComputeProgramCallableEffects | src/optimize.rs:211-300 | For every monotone body analysis over N callables the loop stops within 2N + 1 rounds at the least solution |
| Effects.RoundApproaches | src/optimize.rs:241-299 | A round stays below every solution and sets at least one new flag unless it is the last |
| EffectReachability.GraphIsMonotone | src/optimize.rs:208-210 | The call-graph instance meets the monotonicity that the loop needs |
| EffectReachability.FixedPointIsReachability | src/optimize.rs:211-300 | A callable is marked throwing (side-effecting) exactly when a locally throwing (side-effecting or `never`) callable is reachable from it |
| CacheKey.RuntimeAsmHash | src/runtime_cache.rs:163-170 | The loop computes 64-bit FNV-1a with its wrap-around |
| CacheKey.StepInjective | src/runtime_cache.rs:166-167 | One hash step loses nothing: it is injective in the hash and in the byte |
| CacheKey.OneByteChangesHash | src/runtime_cache.rs:163-170 | Assemblies that differ in one byte never hash alike |
| CacheKey.XorBits | src/runtime_cache.rs:166 | The xor of the step differs in a bit exactly where its operands do |
| CacheKey.KnownHashes | src/runtime_cache.rs:163-170 | The published FNV-1a hashes of the empty text and of `a` |
| CacheName.FileNameInjective | src/runtime_cache.rs:152-160 | A cache file name determines target, hash and heap size, whatever characters the target has |
| CacheName.TempIsNoEntry | src/runtime_cache.rs:73-86 | No temporary file has the name of a cache entry |
| CacheName.TempInjective | src/runtime_cache.rs:73-86 | Temporary files of the same name belong to the same entry, process and time |
| RuntimeCache.StepKeepsInv | src/runtime_cache.rs:58-137 | Every step of every run keeps the protocol invariant for all runs |
| RuntimeCache.CacheIsSafe | src/runtime_cache.rs:52-138 | In every interleaving a cache path is absent or complete for its key, an Ok names such a file, and runs that end in an Ok, a failed assembly or a failed store leave no temporary files when removals work |
| RuntimeCache.LeftFilesExact | src/runtime_cache.rs:88-116 | When removals work, a finished run leaves a temporary file exactly if the assembler could not be started or a failed write had created the file, and that file is the assembly |
| RuntimeCache.EntriesAreStable | src/runtime_cache.rs:117-138 | A present entry keeps its content for the rest of the execution |
| RuntimeCache.PathsAreApart | src/runtime_cache.rs:65-86 | Paths that the protocol takes for different have different names on disk |
| RuntimeCacheRuns.HitIsAnswered | src/runtime_cache.rs:65-71 | If the entry is there before a run has checked, the run answers it as a hit, unless it cannot create the directory, and never writes a temporary file |
| RuntimeCacheRuns.MissWasAbsent | src/runtime_cache.rs:65-88 | Whatever goes on to assemble, and so every miss, found no entry when it checked |
| RuntimeCacheRuns.HitWasPresent | src/runtime_cache.rs:65-125 | A hit was there when the run checked, or checked again after a failed renaming |
| RuntimeCacheRuns.RecheckIsAnswered | src/runtime_cache.rs:122-128 | If renaming fails and the entry is there, the run answers it |
| RuntimeCacheRuns.StoreFailedWasAbsent | src/runtime_cache.rs:122-137 | A run gives up storing only if the entry is not there after renaming has failed |
| RuntimeCacheRuns.StaysAssembled | src/runtime_cache.rs:108-137 | A run whose assembler succeeded ends with an object or because storing failed |
| RuntimeCacheRuns.CanFinish | src/runtime_cache.rs:52-137 | Whatever the other runs have done, a run that has met no failure can by itself finish with its object in at most eight steps |
| RuntimeCacheRuns.CanFail | src/runtime_cache.rs:52-137 | A run whose entry is absent can meet each of the failures still ahead of it, and then ends with that failure |
| Reactor.OpenedAndClosedBalance | showcases/http-server/server.php:100-194 | In an orderly history a descriptor is opened as often as closed, once more if it is still open |
| ReactorTurns.HeaderEndExact | showcases/http-server/server.php:63-73 | The header is complete when two line ends follow each other somewhere |
| ReactorTurns.ConnectionFollows | showcases/http-server/server.php:124-191 | Over any turns a connection keeps its slot and collects what it receives until its peer hangs up or completes the header, and gives up the slot in that very turn, whatever the others do |
| Reactor.Connection.RunFiber | showcases/http-server/server.php:58-87 | A fiber run takes one chunk, and closes the connection exactly if that is empty or completes the header |
| Reactor.Connection.Service | showcases/http-server/server.php:90-98 | A fiber is started on first contact, resumed afterwards and never resumed when finished; either way the connection takes one chunk |
| Reactor.PollMemory.Poll | showcases/http-server/server.php:31-33 | What is reported about the asked descriptors and events is written to their records, and nothing else |
| Reactor.BuildPollSet | showcases/http-server/server.php:127-143 | The poll map lists the active slots in order, their records ask for input on their descriptors, and every access stays inside the allocation |
| Reactor.ServiceReady | showcases/http-server/server.php:152-159 | Every polled connection about which something is reported is serviced once, and no other is touched |
| Reactor.SomeSlotIsFree | showcases/http-server/server.php:162-179 | When fewer slots are polled than exist, the search finds a free one, so the close branch is unreachable |
| Reactor.AcceptPending | showcases/http-server/server.php:162-181 | If the system gives a descriptor, it is opened once and put in the first free slot, and in no other |
| Reactor.ReleaseFinished | showcases/http-server/server.php:184-190 | Exactly the finished connections give up their slots, and nothing is closed by that |
| Reactor.RunTurn | showcases/http-server/server.php:124-191 | One turn makes of every slot what the reference turn says, keeps pool and descriptor table consistent and only adds to the history |
| Reactor.RunHttpServer | showcases/http-server/server.php:101-194 | Over any run the slots are as the reference turns up to the first failing poll make them, exactly the listener and the descriptors held by slots are open, each held by one slot, and every descriptor has been closed exactly as often as it was opened, a held one once less |
| Autoload.Splice | src/autoload/mod.rs:142-147 | Splicing with a running offset merges the loaded files in front of their statements |
| Autoload.RoundIsInterleaving | src/autoload/mod.rs:123-148 | One round equals: for each statement, all files it demands in order, then the statement |
| AutoloadRun.CollectDemands | src/autoload/mod.rs:128-138 | The collection loop loads each resolvable, undeclared and not yet included file once |
| AutoloadRun.RunRound | src/autoload/mod.rs:123-148 | A round is the reference round, and a stable one leaves nothing to load |
| AutoloadRun.PrefixExact | src/autoload/mod.rs:110-120 | The always-loaded files come first: each that is not yet included, once |
| AutoloadRun.RunRounds | src/autoload/mod.rs:123-149 | At most 64 reference rounds, ending settled unless all were used up |
| AutoloadRun.Run | src/autoload/mod.rs:102-150 | Each file is loaded at most once, entry statements keep their order, and every reference left is declared, unresolvable or in a loaded file |
| FoldIfs.FlattenFoldableIfs | src/autoload/rule.rs:527-550 | The recursive loop inlines exactly the decided branches |
| FoldIfs.FlatteningIsIdempotent | src/autoload/rule.rs:527-590 | Flattening twice is flattening once |
| FoldIfs.FoldIsRight | src/autoload/rule.rs:593-625 | A guard is folded to its truth if the comparisons that decide it, if any, come out as comparing the literals' payloads does |
| FoldIfs.FlatteningPreservesRuns | src/autoload/rule.rs:527-590 | Where every deciding guard is folded to its truth, the flattened program has the same runs from every state, whatever the equalities are |
| FoldIfs.GuardExact | src/autoload/rule.rs:566-625 | A choice by any decided guard, compound or not, is flattened rightly from every state exactly when the fold is the guard's truth |
| FoldIfs.ComparisonExact | src/autoload/rule.rs:604-618 | For a single comparison of literals that is when the equality agrees with equality of the payloads |
| FoldIfs.StrictGuardExact | src/autoload/rule.rs:604-618 | With PHP's strict equality, which compares bytes, a strict comparison is folded to its truth exactly when the literals are not two spellings of the same bytes |
| FoldIfs.StrictFoldIsRight | src/autoload/rule.rs:593-625 | Then compound guards decided by such strict comparisons are folded to their truth |
| FoldIfs.OneSpelling | src/string_bytes.rs:26-53 | Literals without byte escapes above ASCII are never two spellings |
| FoldIfs.RespellingMisfolds | src/autoload/rule.rs:609-613 | `'é' === "\xc3\xa9"` holds in PHP, and the flattened program includes the other file |
| FoldIfs.NullIsFalseMisfolds | src/autoload/rule.rs:609-613 | With PHP's `null == false` the flattened program includes the other file |
| FoldDecided.DecidedExactly | src/autoload/rule.rs:593-625 | The fold decides exactly literals, comparisons of literals, and `!`, `&&` and `||` over these as far as they are reached, and to the truth that comparing payloads gives |
| FoldDecided.LiteralIfsAreInlined | src/autoload/rule.rs:527-590 | After flattening no `if` is left all of whose guards are literal |
| FoldDecided.GuardedLoaderIsCollected | src/autoload/rule.rs:50-58 | A loader registered under a literal guard is collected exactly if the guard is true |
| Registration.CollectDeclaredFunctionKeys | src/autoload/rule.rs:351-382 | The walk adds the namespace-qualified keys of all declared functions, also inside namespace blocks |
| Registration.ClassifyAndProcess | src/autoload/rule.rs:199-255 | A classified call appends, prepends, removes the first equal rule, or warns, and is marked consumed |
| Registration.CollectRegisterCalls | src/autoload/rule.rs:50-147 | Chain, warnings and cleaned program are those of the flattened program |
| RegistrationRun.CalleeExact | src/autoload/rule.rs:327-347 | The syntactic test for a builtin autoload call is PHP's name resolution with namespace fallback |
| RegistrationRun.LocalKeys | src/autoload/rule.rs:351-384 | The collected function keys are the functions that a run knows |
| RegistrationText.HeardExact | src/autoload/rule.rs:411-468 | What the collection resolves is the closure given, the conforming closure last assigned to the variable, or the loader last declared with the spelling |
| RegistrationText.MeantExact | src/autoload/rule.rs:42-49 | What the run registers comes from the last assignment, followed through copies, or from the last declaration of the full name, in any letter case and after at most one backslash |
| RegistrationText.VariableHeardExact | src/autoload/rule.rs:429-434 | A variable is resolved to the loader it holds exactly when its last assignment, if any, is of a closure literal or of no loader |
| RegistrationText.HeardIsMeant | src/autoload/rule.rs:411-468 | Except for names of functions, a loader that the collection resolves is the one the run registers |
| RegistrationQueue.ThroughoutExact | src/autoload/rule.rs:87-117 | For every straight-line program, whatever it assigns and computes, the chain is the run's queue after every statement exactly when every call is taken right: the loader heard is the loader meant, by the text, and the flag is read as meant, or neither matters to the chain |
| RegistrationQueue.ChainIsQueue | src/autoload/rule.rs:87-117 | If every call is taken right, the collected chain is the queue that the run builds by append, prepend and remove-first with its current variables |
| RegistrationQueue.MissedExact | src/autoload/rule.rs:199-255 | Without unregister calls, and with names and flags read right, final chain and final queue agree exactly when no loader is missed |
| RegistrationQueue.FlagReadExact | src/autoload/rule.rs:515-521 | A literal flag is misread exactly if it is a true string or a nonzero float |
| RegistrationQueue.AssignedLoaderIsMissed | src/autoload/rule.rs:454-468 | A loader other than a closure literal is missed if a variable hands it over, wherever it was assigned |
| RegistrationQueue.CopiedClosureIsMissed | src/autoload/rule.rs:454-468 | A closure copied to another variable, anywhere before registering that one, is registered by the run and not collected |
| RegistrationNames.NameHeardExact | src/autoload/rule.rs:65-85 | A string is resolved to the loader it names exactly when the last loader of that spelling, after all leading backslashes, and the last function of that full name, after one, provide the same rule, or neither does |
| RegistrationNames.DistinctNameHeardExact | src/autoload/rule.rs:435-447 | Where no name is declared twice, that is when each loader is either both spelled like the string and fully named by it, or neither |
| RegistrationNames.OtherCaseIsMissed | src/autoload/rule.rs:435-447 | Registering `'LOAD'` for `function load`: the queue holds the loader, the chain is empty |
| RegistrationNames.FullNameIsMissed | src/autoload/rule.rs:435-447 | Registering `'App\load'` for a function of namespace `App`: likewise |
| RegistrationNames.ShortNameIsMisheard | src/autoload/rule.rs:435-447 | Registering `'load'` for a function of namespace `App`: the chain holds the loader, the queue is empty |
| RegistrationNames.DoubleBackslashIsMisheard | src/autoload/rule.rs:435-447 | Registering a string of two backslashes and `load`: the chain holds the loader, the queue is empty |
| RegistrationNames.NamedByVariableIsMissed | src/autoload/rule.rs:429-434 | A function name that reaches the call through a variable is missed |
| RegistrationCleaned.LeftExact | src/autoload/rule.rs:119-147 | What a kept call registers in the cleaned run comes from the last kept assignment and the last kept declaration |
| RegistrationCleaned.LeftoverExact | src/autoload/rule.rs:119-147 | The cleaned program registers nothing at any time exactly when no kept call of the builtin has an argument that the kept assignments and declarations make a loader |
| RegistrationCleaned.FinalLeftoverExact | src/autoload/rule.rs:119-147 | If no kept call unregisters, it ends with an empty queue exactly then |
| RegistrationCleaned.NothingLeftToRegister | src/autoload/rule.rs:119-147 | If no call was missed and dropping statements brings no loader to light, running the cleaned program registers nothing |
| RegistrationCleaned.NothingIsUnshadowed | src/autoload/rule.rs:119-147 | Unless a declared function is called like the builtin, no call changes its meaning by what is dropped |
| RegistrationCleaned.MaskedLoaderLingers | src/autoload/rule.rs:124-131 | Dropping a closure brings an older loader of its variable to light, which the cleaned program then registers |
| RegistrationMasked.MaskedLoaderIsRegistered | src/autoload/rule.rs:124-131 | A program of six statements that registers one loader, and whose cleaned form registers another |
| RegistrationIdentity.KnownExact | src/autoload/rule.rs:223-241 | In PHP's queue, where a callable stands once, a callable is registered exactly when the last call with it registers |
| RegistrationIdentity.QueueIsOrdered | src/autoload/rule.rs:223-241 | PHP's queue lists the registered callables in the order that their calls give: prepended ones first, the latest in front, then appended ones |
| RegistrationPhp.ThroughoutAsPhp | src/autoload/rule.rs:223-241 | The chain holds the rules of PHP's queue after every statement exactly when every registration hears, with the flag read as meant, the loader meant or nothing if the callable is known, and every removal hits a known callable of that rule, with none of another rule between the first of that rule and it, or neither side removes anything |
| RegistrationPhp.NoneBetweenExact | src/autoload/rule.rs:236-238 | What stands between two callables in PHP's queue can be told from the calls that registered them |
| RegistrationPhp.LiteralsAreCoherent | src/autoload/rule.rs:411-468 | Where every loader is a literal, possibly handed over by variables, equal callables have equal rules |
| RegistrationPhp.RepeatsExact | src/autoload/rule.rs:223-241 | Without unregister calls and misreadings, and where equal callables have equal rules, the first rule to answer is always PHP's exactly when no known callable is prepended in front of another rule |
| RegistrationPhp.RegisteredTwice | src/autoload/rule.rs:236-238 | A function registered twice and unregistered once stays in the chain, and not in PHP's queue |
| Interpret.Interpreter.ExecBlock | src/autoload/interpret.rs:92-100 | The statement loop stops at the first flow that is not plain continuation |
| Interpret.Interpreter.ExecStmt | src/autoload/interpret.rs:103-156 | Updating the variables in place gives the flow and state of the functional form |
| Interpret.ResolveClass | src/autoload/mod.rs:177-189 | The class index wins; otherwise the first rule that yields an existing file |
| InterpretSound.EvalSound | src/autoload/interpret.rs:159-214 | A folded expression yields that value in every run by PHP's operators and conversions and changes nothing, although both operands of and-or operators are folded |
| InterpretSound.OperateExact | src/autoload/interpret.rs:172-195 | The interpreter's operators are those of the reference: text in order for `.`, truth for `&&` and `||`, equality of values and of class names in any case |
| InterpretSound.ArgumentsReadExact | src/autoload/interpret.rs:217-372 | The interpreter reads as many of the supplied arguments as a call of the documented builtins can have |
| InterpretSound.ResolutionIsSound | src/autoload/interpret.rs:468-481 | Every run reaches an include of the resolved path before anything unsupported happens |
| InterpretSound.ResolutionExact | src/autoload/interpret.rs:217-231 | The resolved path is right in all worlds exactly when no call on the way has an argument the interpreter skips |
| InterpretSound.SurplusArgumentMisleads | src/autoload/interpret.rs:307-316 | The suffix argument of `basename` is ignored: the folded path is `b.php` where PHP includes `b` |
| InterpretComplete.FoldedExactly | src/autoload/interpret.rs:159-214 | An expression is folded exactly if it, and every operand even of and-or operators, yields a value where everything unsupported goes astray |
| InterpretComplete.ResolvedExactly | src/autoload/interpret.rs:92-156 | A rule resolves a class to a path exactly if the run reaches an include of that path and meets nothing unsupported on the way |
| InterpretComplete.IncludingResolves | src/autoload/interpret.rs:180-187 | `include prefix . $c . suffix` resolves every class to the concatenation |
| DataSection.LabelsApart | src/codegen/data_section.rs:56-105 | Generated labels are equal only for the same kind and number |
| DataSection.EveryLabelKeepsItsContent | src/codegen/data_section.rs:56-105 | After any sequence of additions every issued label still stands for what was asked |
| DataSection.SameLabelSameContent | src/codegen/data_section.rs:56-105 | Two requests share a label exactly when they ask for the same constant |
| DataSection.LabelsCountConstants | src/codegen/data_section.rs:56-105 | A label is its kind's prefix and the number of different constants asked for before the first request of that constant |
| DataEmission.Section.AddFloatBits | src/codegen/data_section.rs:56-65 | Floats are interned by their bits, and the new state is the interned pool |
| DataEmission.Section.AddStringBytes | src/codegen/data_section.rs:70-81 | The deduplication map answers as a search through the entries would, and the new state is the interned pool |
| DataEmission.Section.AddWordRecord | src/codegen/data_section.rs:96-105 | Likewise for word records |
| DataEmission.Section.AddCommSymbol | src/codegen/data_section.rs:85-93 | A common symbol is listed once, with its first size |
| DataEmission.Section.Emit | src/codegen/data_section.rs:110-155 | The emission loops print commons, strings, floats and words in that order, and nothing for an empty section |
| DataEmission.LiteralReadsBack | src/codegen/data_section.rs:125-136 | The `.ascii` text of every byte string decodes to the same bytes, whatever follows |
| SectionReader.SectionReadsBack | src/codegen/data_section.rs:110-155 | The printed section gives back all common symbols, strings, floats and word records under their labels and in order |
| DescriptorBuilder.ParamNameTable | src/codegen/callable_descriptor.rs:438-449 | The appending loop writes the specified table and interns its names |
| DescriptorBuilder.BindingTable | src/codegen/callable_descriptor.rs:495-511 | Likewise for captures and hidden parameters |
| DescriptorBuilder.BuildDescriptor | src/codegen/callable_descriptor.rs:193-237 | The builders leave the data section as the specified descriptor does |
| CallableDescriptor.RequiredAmong | src/codegen/callable_descriptor.rs:368-372 | Everything from the result on is defaulted and the parameter before it is not |
| CallableDescriptor.PositionOf | src/codegen/callable_descriptor.rs:373-378 | The first parameter with the variadic's name |
| DescriptorReadback.SignatureReads | src/codegen/callable_descriptor.rs:361-400 | A signature record reads back from its label at the declared offsets |
| DescriptorReadback.DescriptorReadsBack | src/codegen/callable_descriptor.rs:193-237 | A descriptor reads back completely from its label, and later interning never changes what is read |
| DescriptorReadback.DescriptorSurvives | src/codegen/callable_descriptor.rs:193-237 | Whatever is interned before and after it, a descriptor written into the data section reads back |
| DescriptorReadback.DefaultEncodingExact | src/codegen/callable_descriptor.rs:537-576 | The recorded default is the value denoted exactly when no negation is lost and no byte marker is kept in a string |
| DescriptorReadback.EscapedByteIsRecordedLong | src/codegen/callable_descriptor.rs:549-552 | The default `"\xff"` is one byte, and is recorded as the three bytes of its marker |
| DescriptorReadback.RequiredCountIsLeast | src/codegen/callable_descriptor.rs:363-372 | The regular parameters are all but the last of a variadic function, and the recorded required count is the least r from which on each of them is defaulted |
| Names.MangleFqn | src/names.rs:199-215 | The loop computes the mangled name, and the decoder undoes it |
| Names.UnmangledBack | src/names.rs:199-215 | Decoding a mangled name gives the name, for every Unicode string |
| Names.MangledUnderscores | src/names.rs:199-215 | A mangled name has exactly two underscores for each escape |
| Names.TrimExact | src/names.rs:271 | Leading backslashes are removed, all of them and nothing else |
| Names.AsciiLowerExact | src/names.rs:188-190 | Keys lower the twenty-six ASCII letters and keep every other character |
| Symbols.DefineSeenSymbol | src/names.rs:278-289 | The guard label is built byte by byte |
| Symbols.DefineSeenInjective | src/names.rs:278-289 | Different constants have different guard labels |
| SymbolsExact.WrapperInjective | src/names.rs:314-325 | A wrapper label determines both ids and the method |
| SymbolsExact.EntryIsNoVariant | src/names.rs:254-264 | No function label is a variant label |
| SymbolsExact.FunctionParity | src/names.rs:254-296 | Epilogue labels have an odd number of underscores, entry and variant labels an even one |
| SymbolsExact.StaticParity | src/names.rs:331-350 | Static method and static property labels differ in parity |
| SymbolsExact.SharedTextExact | src/names.rs:302-361 | Two class/member pairs share a text exactly when moving the separator of one step by step gives the other |
| SymbolsExact.LabelsExact | src/names.rs:254-361 | Two symbols of any kinds have the same label exactly when they are the same symbol, up to leading backslashes of globals and such moves |
| SymbolsExact.MangledIsSafe | src/names.rs:199-215 | A mangled name consists of letters, digits and underscores |
| SymbolsExact.LabelExamples | src/names.rs:254-361 | One label of every kind, as it is written in the assembly |
| SymbolsExact.PairLabelsInjective | src/names.rs:302-308 | Pair labels are injective when no member can give way, and among owners with equally many escapes |
| SymbolsExact.ShiftableCollides | src/names.rs:302-308 | A member that can give way always has a partner with the same label |
| SymbolsExact.MethodLabelsCollide | src/names.rs:302-308 | `A`/`u_B` and `A_u`/`B` |
| StringBytes.PushEscapedByte | src/string_bytes.rs:26-32 | Appends one character that decodes to the byte |
| StringBytes.PushLiteralChar | src/string_bytes.rs:43-53 | Appends text that decodes to the character's UTF-8, also inside the marker range |
| StringBytes.LiteralBytes | src/string_bytes.rs:66-78 | The decoding loop |
| StringBytes.MarkerBytes | src/string_bytes.rs:66-78 | A marker character stands for its one byte, every other character for its UTF-8 |
| StringBytes.LiteralByteLen | src/string_bytes.rs:91-103 | The length without decoding is the length of the decoded bytes |
| StringBytes.BuiltDecodes | src/string_bytes.rs:26-78 | Any sequence of escaped bytes and source characters decodes to their concatenated bytes |
| ClassLattice.IsSubclassOf | src/codegen/context.rs:603-618 | The walk terminates and finds proper ancestors |
| ClassLattice.UnderExact | src/codegen/context.rs:603-656 | On hierarchies the checker builds, the three tests together decide subtyping |
| ClassLattice.CommonObjectType | src/codegen/context.rs:561-600 | The two ancestor walks compute the common type |
| ClassLattice.CommonIsSymmetric | src/codegen/context.rs:561-600 | The order of the two types does not matter |
| ClassLattice.CommonIsSupertype | src/codegen/context.rs:561-600 | The result is a supertype of both |
| ClassLattice.CommonIsLeast | src/codegen/context.rs:578-597 | It is below every common class supertype, and the least common supertype when the types are related |
| ClassLattice.NoCommonExact | src/codegen/context.rs:599-599 | No result exactly for unrelated types without a common ancestor |

## Left out

- TerminationPrecise.EffectIsExact: precision is claimed without do-while loops, infinite loops, namespace blocks and exit calls, which the effect analysis reports as falling through (ReturnIsOverlooked), and for `try` only where a catch can be reached.
- TerminationPrecise.BreakIsReal: for the same statements.
- TerminationPrecise.ExitGuaranteeIsExact: arms of a switch contain no do-while, infinite loop, namespace block or exit call, since the guarantee asks the terminal effect of a switch.
- Parser, resolver, type checker, optimizer sub-passes, assembly emission, linking and the command line. The body analysis of the effect loop is an arbitrary monotone function, with a call graph as instance; the class context of a method is part of that function.
- Switch subjects and case labels are opaque and the default arm comes last, as the code generator lays them out. Divergence has no outcome: claims are about finite runs.
- File systems, clocks and process ids: cache and temporary paths are constructors, shown to have different names on disk; renaming is atomic, and nobody else deletes cache files. Assemblies for one target and heap size are assumed not to collide in the hash.
- Sockets, HTTP parsing and routing: `poll`, `accept` and `recv` answer from an arbitrary script. The branch that closes an accepted descriptor for want of a free slot is proved unreachable and is not written out.
- File contents, declared names, references and class resolution of the autoload rounds are given functions; `IndexBuilder`, `split_at_first_wildcard`, JSON and path canonicalisation are not modelled.
- String and file-system builtins of the symbolic interpreter, `fold_sprintf` and `fold_dirname` are given functions shared by fold and run. Loose and strict equality of the reference semantics are arbitrary for flattening, with PHP's strict equality of strings as instance; for resolution they are the interpreter's own, and its strings are literals as the parser keeps them, not PHP bytes.
- Hoisting of functions declared in a flattened branch. The queue of `RegistrationRun` compares rules as the code does; `RegistrationIdentity` compares callables, and which closure a computed value is stays arbitrary. Closures that bind variables or do not take exactly the class name register nothing on either side, and neither do method callables (arrays and `'A::load'`) or calls made inside functions that the program calls.
- Straight-line programs in the registration results are sequences of declarations, assignments and expression statements with literal flags; what other expressions evaluate to is an arbitrary function of the variables. Branches, loops, references and namespace blocks are outside.
- RegistrationCleaned.NothingLeftToRegister: a sufficient condition on the program as written; LeftoverExact is the equivalence.
- DescriptorReadback.DescriptorReadsBack: parameter vectors of equal length and integer defaults in range, as the callers provide; the type tag, stack size and register count of a type are given numbers.
- The records are specified on pool values; `DescriptorBuilder` ties the appending builders to them. Names and invocation strings are raw bytes.
- `HeapOwnership`, slot allocation, `Name` construction, PDO prelude, intrinsics and exports: lookups and plain bookkeeping.
