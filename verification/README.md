# Verified models of axiom-kernel

A Dafny 4.11 project that models the host-side algorithms of axiom-kernel and proves what they are
meant to guarantee. `dafny verify dfyconfig.toml` checks all of it. Every statement below is a proof
about the model; nothing was executed.

## What is modelled

* **Persistent KV tier** (`KvTier`, `KvTierRuns`, `KvLayout`). The append transaction over two files and a manifest:
  journal, page writes, header commit, manifest rename, discard, and recovery. A volume separates
  what the process sees from what a power loss may leave behind (unsynced pages and header, renames
  a directory sync has not covered, torn temporary files). Any system call may fail, with or without
  effect, at any time. A ghost flag `exposed` records, after every single call, whether the invariant
  failed at that moment. For transactions that recovery can tell apart (`Distinguished`) that means: a
  power loss could leave a disk that recovery does not make whole (`SafeIffSurvivorsRecover`). The methods
  say when the flag stays false.
  The layout part is the plan and offset arithmetic with its 32- and 64-bit widths.
* **Tool-schema compiler** (`Json`, `Schema`, `SchemaForm`, `SchemaLowering`, `SchemaSplit`, `SchemaAlternatives`,
  `SchemaDocumentation`, `SchemaStrict`, `SchemaLost`, `SchemaScattered`, `SchemaNulNames`). `Sat` is the satisfaction relation of the original-schema
  argument validator, with its two passes over an object and its lookups by C string; `check` is the
  native syntax validator, left arbitrary. What the compiler builds is a function of the schema alone
  (`Form`), proved exact against `Sat`; `check` and the depth limit only decide whether it is returned.
  What it distributes a schema into (`Split`), which schemas it can distribute (`Divides`) and how many
  alternatives there are (`Width`) are functions of the schema, `check` and the depth.
  A value is clean if no part of it has a NUL in a member name and yet equals some value.
* **Batching engine** (`Decoding`, `BlockPool`, `Batching`). Paged KV blocks with reference counts and
  a prefix cache. The reference is a solo run of one request over a private cache; the model's hooks
  (KV entry, logits, sampler) are arbitrary functions of the history. Reals stand for floats: the
  claims are about which values are read and written, not about rounding.
* **Speculative decoding** (`Speculation`, `Speculative`, `MtpSpeculative`). The two controllers over
  transactional back ends given by their documented contracts; each call may fail or misreport.
  The reference is one-token greedy decoding.
* **Swarm scheduler** (`SwarmModel`, `SwarmInvariant`, `SwarmTransitions`, `SwarmAncestry`,
  `SwarmScheduler`, `SwarmCancellation`). Agents, waves, tasks, retries, deadlines and hierarchical cancellation over
  atomic operations and unbounded time. Ids count from 0 here and from 1 in the program.
* **JSON text** (`JsonStrings`, `JsonNumbers`, `JsonText`, `JsonStability`, `JsonParser`). The parser
  and serializer as they move a position and append to a buffer, and the grammar and text they are
  proved to implement. A `char` stands for one byte. Doubles are read and written by two functions
  that stand for the C library.
* **Streaming SHA-256** (`Sha256`), with the compression function left arbitrary.
* **Wire names** (`WireNames`, `Decimal`), with SHA-256 as an arbitrary function that may fail.
* **Session store** (`SessionNames`, `SessionGc`, `SessionRoot`): file names, choice of victims, and
  deletion that survives crashes.
* **Split planner** (`SplitPlan`).

Classes hold what the program updates in place. Where a back end, a system call or a family hook
can fail, a ghost flag `faulted` records it, and failure postconditions say that a refusal has a reason:
a fault, or a condition the caller can see.

## What the code does not promise

These came out of the proofs. The program is modelled as it is, and the exact condition is proved
unless the entry says that only one half is.

* Recovery of the KV tier tells the two sides apart by token counts alone. A published transaction is
  recovered whole if and only if the counts differ, the base page is full, or the partial base page did
  not change (`PublishedRecoversIff`).
* Discarding the journal is safe if and only if whatever manifest may survive has its side durable
  (`DiscardSafeIff`), so not between the manifest's rename and the directory sync.
* Recovery in a running process, or after the process was killed, acts on entries that may not be
  durable. Its first step is safe if and only if they are (`RecoverableIff`). It is not after a failed
  directory sync of the journal (`UncoveredJournal`) or of the manifest (`UncoveredManifest`); after a
  restart it always is.
* `get` takes a C string, so a member whose name holds a NUL byte, which the parser accepts as `\u0000`,
  is looked up under a shorter name. JSON equality is then neither reflexive nor symmetric
  (`NulNameBreaksEquality`); the exact conditions are `EqualReflexive` and `SymmetricIff`.
* For the same reason a compiled schema may judge a value otherwise than its source
  (`NulNameEscapesLowering`). It does so for some schema if and only if the value is lost: some group of
  its parts, reached by one path of names and items, all equal something while one of them has a NUL in
  a name (`ExactIff`, over schemas at any nesting). With the depth limit a value that is not lost is judged
  exactly, and a lost one that is nested at most 31 deep is not, with a `check` that passes everything
  (`ExactWithin`); for lost values nested deeper nothing is said within the limit.
* Distribution into alternatives loses objects with two names that are cut to one (`NulNameEscapesDistribution`,
  `MixedTypesLost`). Splitting one property is exact for an object, whatever the union, if and only if its
  members looked up under that name all equal each other (`SplitExactIff`, for members without NULs inside).
  Whole distributions are exact for a value that is not lost if and only if it is not scattered: under every path
  of names the parts looked up together have a least one, accepted by no more schemas than each other one
  (`ScatteredIff`); among parts without NULs in names that means that they are all equal (`LeastIffEqual`).
  `DistributionIff` puts both conditions together. It counts all distributions, also those into more
  alternatives than the limit.
* `hot_tokens` of a plan is right exactly while fewer than 2^24 pages are hot (`HotTokensWrap`).
* Creating a speculative controller does not compare the two positions. They stay equal exactly if
  they were equal.
* A prefix lookup may reuse every block of a prompt that consists of full blocks (`WholePromptReused`).
  Then no token is prefilled and the sequence starts from what its new logits buffer held. It starts
  with the prompt's logits if and only if the lookup leaves a token (`Prefill`, `JoinsFaithfully`), which
  it does for every prompt that is not cached whole (`Admit`).
* `cancel_wave` turns a wave that had already succeeded into a cancelled one (`SucceededWave`). A wave that
  had ended keeps its state if and only if it is not selected or had ended cancelled (`EndedWaveKeptIff`).
* A task submitted below an already cancelled wave is accepted, and may start if and only if its own wave
  has room (`LateTask`, `CancelledWave`): `submit` and `admit_next` look at no other wave's flag
  (`OtherFlagsIgnored`).
* The SHA-256 length field is right exactly below 2^61 bytes (`LengthFieldExact`).
* A garbage collection that starts while an earlier run's tombstone rename is not yet durable can lose
  files of a session that a later crash brings back (`UncoveredTombstone`). A whole run is safe at every
  moment unless that tombstone is the first one it finishes and still has files; finishing any other one
  first covers the rename (`PruneStaleSessions`).
* The split planner adds in 64 bits: layers whose sizes wrap to zero are refused as empty
  (`WrappedTotalRefused`). An emitted plan passes the validator if and only if no later inventory row
  repeats a worker's name with another endpoint or too little memory (`EmittedValidates`).
* The JSON round trip holds exactly up to 64 levels of nesting (`ParseOfText`).

## Model

| member | source | states |
|---|---|---|
| `KvTier.SafeIffSurvivorsRecover` | src/axiom_qwen38_kv_tier.cpp:1101-1138 | the protocol invariant holds in a state if and only if every disk a power loss may leave there is recovered to all-old or all-new; equal counts are included wherever recovery can be whole at all |
| `KvTier.SafeSurvivorsRecover` | src/axiom_qwen38_kv_tier.cpp:1101-1138 | whatever a restart finds in a safe state, recovery succeeds, and the manifest alone decides which side it ends on |
| `KvTier.RestartKeepsSafe` | src/axiom_qwen38_kv_tier.cpp:1101-1138 | losing power again, also inside recovery, never leaves the invariant |
| `KvTier.RecoveryIsIdempotent` | src/axiom_qwen38_kv_tier.cpp:1101-1138 | recovering twice is recovering once, and a refused recovery changes nothing and keeps the journal |
| `KvTier.RollbackRestoresOld` | src/axiom_qwen38_kv_tier.cpp:352-391 | writing the journal back over any torn tail gives back the old header and every old page below the old count |
| `KvTier.RestoredContents` | src/axiom_qwen38_kv_tier.cpp:352-391 | each journal record lands in its own page slot and no other slot moves |
| `KvTier.NewNeedsAllNew` | src/axiom_qwen38_kv_tier.cpp:1126-1134 | unless the journal is written back, a disk under the new manifest is whole only if header and pages were all new before recovery |
| `KvTier.NewNotDurable` | src/axiom_qwen38_kv_tier.cpp:1126-1134 | if the new manifest may survive while the new side is not durable, some crash is not recovered |
| `KvTier.OldNotDurable` | src/axiom_qwen38_kv_tier.cpp:352-391 | if the old manifest may survive without a journal while the old side is not durable, some crash is not recovered |
| `KvTier.PrefixNotDurable` | src/axiom_qwen38_kv_tier.cpp:352-391 | pages before the base page are in no journal, so putting one at risk loses some crash |
| `KvTier.PublishedRecoversIff` | src/axiom_qwen38_kv_tier.cpp:1124-1134 | a published transaction with its journal still there is recovered whole if and only if the counts differ, the base page is full, or the partial base page did not change |
| `KvTier.EqualCountsRestore` | src/axiom_qwen38_kv_tier.cpp:1124-1128 | with equal counts the journal is written back under the new manifest too, and where the base page is unchanged that is the new side |
| `KvTier.DiscardSafeIff` | src/axiom_qwen38_kv_tier.cpp:393-397 | removing the journal is safe if and only if whatever manifest may survive has its side durable; with growing counts: the old manifest cannot survive or the old side is durable |
| `KvTier.UnsyncedManifestForbidsDiscard` | src/axiom_qwen38_kv_tier.cpp:393-397 | false case: removing the journal while the manifest rename is not yet durable loses some crash |
| `KvTier.TailRestored` | src/axiom_qwen38_kv_tier.cpp:352-391 | every layer of the partial base page holds its old record again after recovery |
| `KvTier.SettledStartsNext` | tools/axiom_qwen38_api.cpp:2444-2460 | a finished or recovered transaction leaves a state the next one may begin from, also while the removal of the old journal is not yet durable |
| `KvTier.SameJournal` | src/axiom_qwen38_kv_tier.cpp:969-1036 | two transactions that start from one durable state write the same journal |
| `KvTier.RecoverableIff` | src/axiom_qwen38_kv_tier.cpp:1101-1138 | recovery in a running system is safe from its first step on if and only if the entries it acts on are durable |
| `KvTier.FirstWriteSafeIff` | src/axiom_qwen38_kv_tier.cpp:352-391 | writing the first record back is safe if and only if every surviving view would repeat it |
| `KvTier.UncoveredJournal` | src/axiom_qwen38_kv_tier.cpp:1060-1076 | false case: after a failed directory sync of the journal's rename the first step of recovery exposes some crash |
| `KvTier.UncoveredManifest` | src/axiom_qwen38_session_store.cpp:1006-1032 | false case: after a failed directory sync of the manifest's rename removing the journal exposes some crash |
| `KvTier.TailWriteKeepsHeld` | tools/axiom_qwen38_api.cpp:1974-2057 | page writes from the base page on are safe in any order once the journal is durable |
| `KvTier.FlushedEverything` | tools/axiom_qwen38_api.cpp:1974-2057 | pages rewritten from the base page to the end are all the pages the new count covers |
| `KvTier.Tier.PwritePage` | src/axiom_qwen38_kv_tier.cpp:183-198 | a failed page write leaves nothing or any torn page |
| `KvTier.Tier.ReadTail` | src/axiom_qwen38_kv_tier.cpp:1012-1036 | the records read are those of the partial base page, target layers first; it fails only when a read fails |
| `KvTier.Tier.ReadFamily` | src/axiom_qwen38_kv_tier.cpp:1018-1035 | one family's records of the base page, in journal order after those before it |
| `KvTier.Tier.PlaceJournal` | src/axiom_qwen38_kv_tier.cpp:1047-1076 | write, sync, rename, directory sync: whatever fails, no moment is exposed and the old side stays durable; on success only the journal may survive |
| `KvTier.Tier.TransactionBegin` | src/axiom_qwen38_kv_tier.cpp:969-1076 | on success the journal is durable with the old side still durable; on any failure no moment was exposed; it may start while the last journal's removal is not durable; it fails only on a fault, an outstanding write or a wrong base |
| `KvTier.Tier.RestoreFamily` | src/axiom_qwen38_kv_tier.cpp:360-377 | one family's records go back in journal order, stopping safely at the first failed write |
| `KvTier.Tier.RestorePages` | src/axiom_qwen38_kv_tier.cpp:352-384 | the journalled pages go back and are synced before the watermark |
| `KvTier.Tier.RestoreTransaction` | src/axiom_qwen38_kv_tier.cpp:352-391 | on success the visible disk is the recovered one with its journal; safe throughout where every surviving view would repeat it, and exposed where not |
| `KvTier.Tier.TransactionDiscard` | src/axiom_qwen38_kv_tier.cpp:393-397 | the journal is gone for good on success; a settled side is never endangered, any other is exposed |
| `KvTier.Tier.TransactionRollback` | src/axiom_qwen38_kv_tier.cpp:1078-1099 | on success the disk is all-old with the journal gone for good, nothing is outstanding and the watermark is the old one; otherwise, a journal that cannot be read included, it stays recoverable under the old manifest |
| `KvTier.Tier.SubmitWrite` | src/axiom_qwen38_kv_tier.cpp:785-857 | refuses exactly unplanned slots and a full queue; a ring that fails leaves nothing or a torn page; otherwise each write's own outcome is queued |
| `KvTier.Tier.Drain` | tools/axiom_qwen38_api.cpp:1948-1972 | succeeds only if every write since the last drain succeeded, and fails otherwise only when waiting itself failed |
| `KvTier.Tier.FlushRecord` | tools/axiom_qwen38_api.cpp:1992-2031 | one more record in place unless some write failed; a full queue is drained first |
| `KvTier.Tier.FlushFamily` | tools/axiom_qwen38_api.cpp:2037-2048 | with no failed write all of a family's records of the page hold the new contents |
| `KvTier.Tier.FlushPage` | tools/axiom_qwen38_api.cpp:2035-2049 | with no failed write the whole page holds the new contents |
| `KvTier.Tier.PersistPages` | tools/axiom_qwen38_api.cpp:1974-2057 | on success every covered page and the header are new and durable; it fails only on a fault and then keeps the old watermark in memory |
| `KvTier.Tier.Commit` | src/axiom_qwen38_kv_tier.cpp:936-949 | refused exactly with writes outstanding, a smaller count or one beyond the context; the watermark moves only to a durable header, and moves back in memory when the write fails |
| `KvTier.Tier.PublishManifest` | src/axiom_qwen38_session_store.cpp:1006-1032 | the manifest is durable on success, and either outcome leaves one recoverable side |
| `KvTier.Tier.WriteNewSide` | tools/axiom_qwen38_api.cpp:2420-2442 | pages, watermark and manifest: before publication is attempted only the old side can be found, afterwards either side is durable |
| `KvTier.Tier.Append` | tools/axiom_qwen38_api.cpp:2357-2460 | at no moment of a whole append, whatever fails, does the invariant break; it ends all-new with no journal, or fails for a fault, an outstanding write, a wrong base or a count beyond the context; a failure before publication whose rollback succeeds, or in begin, leaves the disk all-old, and after the rollback ready for the next append |
| `KvTier.Tier.TransactionRecoverFile` | src/axiom_qwen38_kv_tier.cpp:1101-1138 | in a running process, after a kill or after a restart: success shows the recovered disk, all-old or all-new; no moment is exposed if the entries it acts on are durable, and some moment is if they are not; it fails only when a system call fails |
| `KvTier.Tier.RecoverThroughCrashes` | src/axiom_qwen38_kv_tier.cpp:1101-1138 | however often recovery is cut short by power losses and process kills, no moment is exposed and the first one that completes ends all-old or all-new with the journal gone |
| `KvTierRuns.SettledReady` | tools/axiom_qwen38_api.cpp:2444-2460 | after a completed append or recovery any append may start from what the disk shows |
| `KvTierRuns.IdleReady` | src/axiom_qwen38_kv_tier.cpp:1078-1099 | and so after a rollback |
| `KvTierRuns.ComeBack` | src/axiom_qwen38_kv_tier.cpp:1101-1138 | after any failure and any power losses a recovery that completes ends all-old or all-new and ready to serve |
| `KvTierRuns.Save` | tools/axiom_qwen38_api.cpp:2357-2466 | one request with whatever happens to it: reported as saved it is saved, otherwise it is saved whole or not at all |
| `KvTierRuns.FilledStay` | tools/axiom_qwen38_api.cpp:1974-2057 | an append, whichever way it ends, changes no page that an earlier one filled |
| `KvTierRuns.FillsContext` | src/axiom_qwen38_kv_tier.cpp:522-560 | for every context length there is a session that asks for appends until the context is full |
| `KvTierRuns.Run` | tools/axiom_qwen38_api.cpp:2357-2466 | whole runs of requests, failures, rollbacks, power losses and recoveries, for every context length: no moment is exposed, and unless recovery is given up the disk shows the last saved entry with every page it covers and holds every page that any earlier entry filled |
| `KvLayout.CheckedMul` | src/axiom_qwen38_kv_tier.cpp:47-51 | the division test refuses exactly the products that do not fit 64 bits |
| `KvLayout.PlanGetExact` | src/axiom_qwen38_kv_tier.cpp:522-560 | a plan is accepted exactly for a positive context with no more hot pages than pages, the overflow checks never fire, and the page count is the least that holds the context |
| `KvLayout.HotTokensWrap` | src/axiom_qwen38_kv_tier.cpp:547-555 | false case: the 32-bit hot token product is right if and only if fewer than 2^24 pages are hot |
| `KvLayout.PageOffsetExact` | src/axiom_qwen38_kv_tier.cpp:232-266 | a lookup is refused exactly when out of range and never because of overflow; otherwise the offset is the record's rank times the page size after the header |
| `KvLayout.RankBound` | src/axiom_qwen38_kv_tier.cpp:572-608 | ranks stay below the number of records |
| `KvLayout.RankInjective` | src/axiom_qwen38_kv_tier.cpp:572-608 | different (family, layer, page) triples have different ranks |
| `KvLayout.RecordsDisjoint` | src/axiom_qwen38_kv_tier.cpp:572-608 | byte ranges of different records never overlap |
| `KvLayout.RecordInFile` | src/axiom_qwen38_kv_tier.cpp:572-608 | each record is block-aligned and lies between header and end of file |
| `KvLayout.Unrank` | src/axiom_qwen38_kv_tier.cpp:572-608 | every rank below the record count belongs to a record |
| `KvLayout.RecordsTile` | src/axiom_qwen38_kv_tier.cpp:522-608 | every byte after the header lies in a record: the records tile the file |
| `Json.LookupSet` | tools/axiom_aliced_json.h:72-90 | through get, which takes a C string, a written member reads back exactly when its name holds no NUL; every other name reads as before |
| `Json.SetMemberKeys` | tools/axiom_aliced_json.h:83-92 | set keeps the order of names and appends only a name that was absent |
| `Json.SetWf` | tools/axiom_aliced_json.h:83-92 | set never makes two members of one name |
| `Json.EqualReflexive` | tools/axiom_qwen38_api.cpp:4289-4332 | a value equals itself if and only if each member whose name holds a NUL has a twin under the cut name with an equal value; so every value without such names does |
| `Json.NulNameBreaksEquality` | tools/axiom_qwen38_api.cpp:4320-4329 | false case: the parsed value with the single name a, NUL, b is not equal to itself, and equals one that does not equal it |
| `Json.TwinEqualsItself` | tools/axiom_qwen38_api.cpp:4320-4329 | a NUL in a name alone does not break reflexivity: with an equal twin under the cut name the value equals itself |
| `Json.EqualNulFree` | tools/axiom_qwen38_api.cpp:4320-4329 | a value without NULs in names equals only such values |
| `Json.EqualSymmetric` | tools/axiom_qwen38_api.cpp:4289-4332 | symmetric for values without NULs in names, although the code compares from one side only |
| `Json.EqualTransitive` | tools/axiom_qwen38_api.cpp:4289-4332 | JSON equality is transitive |
| `Json.EqualObjectsSameKeys` | tools/axiom_qwen38_api.cpp:4320-4329 | an object without NULs in names has the names of every object it equals, not only as many |
| `Schema.SatRespectsEqual` | tools/axiom_qwen38_api.cpp:4804-4878 | a value without NULs in names satisfies what every value it equals satisfies, and the other way round by symmetry |
| `Schema.MembersFollow` | tools/axiom_qwen38_api.cpp:4509-4530 | for such values the pass over the value's members repeats the pass over the schema's property names |
| `Schema.CongruentExact` | tools/axiom_codex_schema.h:64-79 | replacing sub-schemas by equivalent ones keeps what a schema accepts |
| `Schema.AnnotationExact` | tools/axiom_codex_schema.h:36-40 | annotations never change what a schema accepts |
| `SchemaForm.CandidatesComplete` | tools/axiom_codex_schema.h:94-100 | a branch with candidates accepts no value outside them |
| `SchemaLowering.MergeCandidates` | tools/axiom_codex_schema.h:101-108 | the collected values gain exactly the candidates the original branch accepts, once each and in order; comparing texts instead of values makes no difference, by JsonText.TextMembership |
| `SchemaLowering.AdmitCandidates` | tools/axiom_codex_schema.h:110-116 | kept are exactly the values the whole source accepts, in order |
| `SchemaLowering.EnumReplacement` | tools/axiom_codex_schema.h:118-122 | the replacement is made of annotations, bounds and the enumeration, and asserts the enumeration and the source's bounds, nothing else |
| `SchemaForm.EnumerationExact` | tools/axiom_codex_schema.h:110-124 | the enumeration of admitted candidates accepts exactly the clean values the union and its siblings accept |
| `SchemaLowering.CheckSyntax` | tools/axiom_codex_schema.h:36-63 | accepts exactly known keywords with well-formed bounds |
| `SchemaLowering.LowerProperties` | tools/axiom_codex_schema.h:66-73 | each property keeps its name and place and gets its compiled schema, which means the same; it fails with the first failure below |
| `SchemaLowering.LowerChildren` | tools/axiom_codex_schema.h:64-79 | everything below a node is compiled in place, which changes no accepted clean value; it fails with the first failure below |
| `SchemaLowering.CollectBranch` | tools/axiom_codex_schema.h:92-108 | the values a branch names and accepts join the collection; it fails with the branch's own failure, or for want of a finite set exactly when the branch is no union and names none |
| `SchemaLowering.CollectCandidates` | tools/axiom_codex_schema.h:90-109 | the values all branches name and accept, in order; every clean value some branch accepts is represented among them |
| `SchemaLowering.LowerUnion` | tools/axiom_codex_schema.h:80-124 | the enumeration of what the union admits, unless it is malformed, check refuses the node without its union, a branch fails, nothing is admitted or check refuses the enumeration, in this order |
| `SchemaForm.SiblingKeywords` | tools/axiom_codex_schema.h:83-89 | what is checked beside a union asserts exactly the node without it |
| `SchemaForm.NodeExact` | tools/axiom_codex_schema.h:64-79 | a node keeps its keywords but for sub-schemas replaced by equivalent ones |
| `SchemaForm.ReplacementKeywords` | tools/axiom_codex_schema.h:118-122 | the replacement asserts the enumeration and the bounds |
| `SchemaForm.AdmittedExact` | tools/axiom_codex_schema.h:90-116 | a union admits values it accepts, and one for every clean value it accepts |
| `SchemaForm.FormExact` | tools/axiom_codex_schema.h:28-130 | whatever the compiler can express, with unions nested at any depth, its compiled form accepts exactly the same clean values |
| `SchemaLowering.SucceedsIff` | tools/axiom_codex_schema.h:28-130 | compiling succeeds if and only if at every position the depth is allowed, the node fits, and check passes the very schemas it is asked about: the compiled node, or for a union the node without it and its enumeration, which must admit something |
| `SchemaLowering.FiniteIsRefused` | tools/axiom_codex_schema.h:94-100 | only a union with a branch that names no finite set fails for that reason |
| `SchemaLowering.LegibleForm` | tools/axiom_codex_schema.h:28-130 | a schema without unions is compiled to itself exactly when legible at every position, and refused otherwise |
| `SchemaLowering.LegibleUnionFailure` | tools/axiom_codex_schema.h:80-124 | a union of such branches without sub-schemas beside it fails for an infinite branch, or exactly when it admits nothing or check refuses its enumeration |
| `SchemaLowering.EmptyUnion` | tools/axiom_codex_schema.h:117-117 | a union that admits nothing is one no clean value satisfies |
| `SchemaLowering.LowerSchema` | tools/axiom_codex_schema.h:28-130 | the result is the compiled form or the first failure; it succeeds if and only if every position is acceptable; what it returns accepts exactly the clean values the source accepts; union-free schemas come back unchanged exactly when legible |
| `SchemaAlternatives.OnlyUnionMeaning` | tools/axiom_codex_schema.h:150-157 | a union with annotations only means exactly its branches |
| `SchemaAlternatives.LabelledAllMeans` | tools/axiom_codex_schema.h:162-166 | copying the union's annotations onto alternatives changes no accepted value |
| `SchemaAlternatives.SplitBranchesMean` | tools/axiom_codex_schema.h:158-168 | the alternatives of all branches together accept what the branches accept |
| `SchemaAlternatives.SplitKey` | tools/axiom_codex_schema.h:170-189 | splitting one property's schema splits the accepted NUL-free objects, also those without the property |
| `SchemaAlternatives.NamedSplit` | tools/axiom_qwen38_api.cpp:4509-4530 | property names of the schema that hold a NUL constrain names only, so distribution leaves them alone |
| `SchemaAlternatives.WithChildMeans` | tools/axiom_codex_schema.h:184-186 | one more property meets the accepted set with that property's |
| `SchemaAlternatives.ProductMeans` | tools/axiom_codex_schema.h:182-187 | the cross product accepts the meet of what was built with the union of the choices |
| `SchemaAlternatives.ShapedUnion` | tools/axiom_codex_schema.h:173-194 | nodes that differ in property schemas only accept together what the source accepts |
| `SchemaAlternatives.SplitMeans` | tools/axiom_codex_schema.h:136-195 | whatever can be distributed accepts exactly the NUL-free values some alternative accepts, siblings and absent optional properties included |
| `SchemaSplit.SplitWidth` | tools/axiom_codex_schema.h:136-195 | the number of alternatives: the sum over the branches of a union, the product over the properties of a node |
| `SchemaSplit.WholeIsFinite` | tools/axiom_codex_schema.h:94-100 | what compiles under one check never fails for want of finitely many values under another |
| `SchemaSplit.DivisibleFailure` | tools/axiom_codex_schema.h:139-143 | what can be distributed either compiles as it stands or fails with just the failure that distribution recovers from |
| `SchemaSplit.UnionDivides` | tools/axiom_codex_schema.h:150-168 | a bare union left to distribution is distributed if and only if every branch is |
| `SchemaSplit.PropertiesDivide` | tools/axiom_codex_schema.h:170-194 | a node left to distribution is distributed if and only if it compiles without its properties, each property is distributed and check passes every alternative; then some property did not compile |
| `SchemaAlternatives.Annotate` | tools/axiom_codex_schema.h:163-164 | the union's members other than anyOf, set in order |
| `SchemaAlternatives.AppendAnnotated` | tools/axiom_codex_schema.h:162-166 | the annotated alternatives appended, or refusal beyond the limit |
| `SchemaAlternatives.DistributeUnion` | tools/axiom_codex_schema.h:158-168 | all alternatives of all branches in order, or refusal if a branch cannot be distributed or they are too many together |
| `SchemaAlternatives.Expand` | tools/axiom_codex_schema.h:182-187 | the cross product in the program's order |
| `SchemaAlternatives.ExpandAll` | tools/axiom_codex_schema.h:177-189 | the products of all properties, or refusal if one cannot be distributed or they are too many |
| `SchemaAlternatives.DistributeProperties` | tools/axiom_codex_schema.h:170-194 | the node without its properties compiled, multiplied by all choices, every alternative checked |
| `SchemaAlternatives.LowerAlternatives` | tools/axiom_codex_schema.h:136-195 | succeeds if and only if the schema compiles as it stands or can be distributed into no more schemas than the limit; returns exactly those; a NUL-free value satisfies the source if and only if it satisfies some of them |
| `SchemaNulNames.NulNameEscapesLowering` | tools/axiom_codex_schema.h:80-124 | false case, for every name holding a NUL and every property schema: the object union of one enumerated value, with type, properties and required beside it, is compiled to the bare enumeration, which the value under the long name satisfies and the union does not |
| `SchemaNulNames.ObjectUnionCompiles` | tools/axiom_codex_schema.h:80-124 | the compiler accepts that union exactly when it accepts the property schema and check accepts the enumeration and the node without its union |
| `SchemaStrict.StrictAccepts` | tools/axiom_qwen38_api.cpp:4804-4878 | for every value without NULs in names a schema that accepts exactly the values without NULs in names that equal it |
| `SchemaLost.ScrubEqual` | tools/axiom_qwen38_api.cpp:4320-4329 | whatever equals a value equals one without NULs in names |
| `SchemaLost.SymmetricIff` | tools/axiom_qwen38_api.cpp:4289-4332 | JSON equality of a value with others is symmetric if and only if it is not the case that the value has a NUL in a name and equals something |
| `SchemaLost.NamedEqual` | tools/axiom_codex_schema.h:94-124 | a value that satisfies a schema which names its values equals one of them |
| `SchemaLost.GroupExact` | tools/axiom_codex_schema.h:28-130 | on parts reached together by one path a compiled schema decides like its source unless they are lost |
| `SchemaLost.ExactIff` | tools/axiom_codex_schema.h:28-130 | the exact condition: every schema the compiler can express judges a value like its compiled form if and only if the value is not lost, that is no group of its parts under one path of names and items all equal something while one of them has a NUL in a name |
| `SchemaLost.ExactWithin` | tools/axiom_codex_schema.h:28-130 | the same of lower_schema with its depth limit: a value that is not lost is judged exactly whatever check says; a lost one that is nested at most 31 deep is misjudged by a schema within the limit |
| `SchemaLost.CleanNotLost` | tools/axiom_codex_schema.h:28-130 | clean values are not lost, so neither are values without NULs in names |
| `SchemaLost.EscapingLost` | tools/axiom_codex_schema.h:28-130 | a value with a NUL in a name that equals something is lost |
| `SchemaNulNames.NulNameEscapesDistribution` | tools/axiom_codex_schema.h:170-189 | false case, for every such name beside its cut: the source accepts when each member has a branch, an alternative only when one branch fits both |
| `SchemaNulNames.PropertyApplies` | tools/axiom_qwen38_api.cpp:4509-4530 | a property schema applies to exactly the members that are looked up under its name |
| `SchemaNulNames.SplitExactIff` | tools/axiom_codex_schema.h:170-189 | the exact condition for one split: every union of a property may be split into its choices for an object if and only if its members looked up under that name all equal each other |
| `SchemaScattered.Higher` | tools/axiom_codex_schema.h:136-195 | what can be distributed under some check and at some depth can be distributed at any smaller depth when everything passes |
| `SchemaScattered.SplitNodeTakes` | tools/axiom_codex_schema.h:170-194 | an alternative of a node accepts a group of parts if and only if the node's other assertions do and every name has a choice that accepts the parts looked up under it |
| `SchemaScattered.SplitGroup` | tools/axiom_codex_schema.h:136-195 | for parts looked up together and not lost: what an alternative accepts the schema accepts, and unless they are scattered the other way round, under every check and from every depth |
| `SchemaScattered.SplitJudges` | tools/axiom_codex_schema.h:136-195 | the same for whole values |
| `SchemaScattered.ScatteredLoses` | tools/axiom_codex_schema.h:136-195 | parts that are scattered and not lost are accepted by some schema and by none of its alternatives |
| `SchemaScattered.ScatteredIff` | tools/axiom_codex_schema.h:136-195 | the exact condition for whole distributions: a value that is not lost is judged alike by every schema and its alternatives if and only if it is not scattered, that is under every path of names the parts looked up together have one that is accepted by no more schemas than each other one |
| `SchemaScattered.DistributionIff` | tools/axiom_codex_schema.h:136-195 | with lost values included, for values nested at most 31 deep: exact for every schema if and only if neither lost nor scattered |
| `SchemaScattered.RegularKept` | tools/axiom_codex_schema.h:136-195 | values without NULs in names are neither |
| `SchemaScattered.LeastIffEqual` | tools/axiom_codex_schema.h:170-189 | parts without NULs in names have such a least one if and only if they are all equal |
| `SchemaNulNames.UnequalScattered` | tools/axiom_codex_schema.h:170-189 | an object with unequal values under a name and under a longer one that is cut to it is scattered |
| `SchemaNulNames.MixedTypesKept` | tools/axiom_codex_schema.h:170-189 | for example: a property that is a string or an integer, and an object with a string under the cut name and an integer under the long one: the source accepts it |
| `SchemaNulNames.MixedTypesLost` | tools/axiom_codex_schema.h:170-189 | and neither alternative does |
| `SchemaDocumentation.Hoist` | tools/axiom_codex_schema.h:200-227 | hoisting accepts the same values, names with NULs included, leaves documentation at no schema position, and changes nothing the second time |
| `SchemaDocumentation.HoistValue` | tools/axiom_codex_schema.h:209-223 | what stands under a keyword is replaced by something equivalent; enum and const values stay as they are |
| `Decoding.ArgMaxIsFirstMaximum` | tools/axiom_engine.cpp:487-491 | the greedy pick is the first index of the largest logit |
| `Decoding.FindArgMax` | tools/axiom_engine.cpp:488-490 | the scan finds that index |
| `Decoding.KvsPrefix` | tools/axiom_engine.cpp:401-427 | cache entries depend on the tokens before them only |
| `Decoding.SoloCacheIsHistory` | tools/axiom_engine.cpp:451-548 | a solo run's cache is that of a prefix of prompt and output, all of it while running |
| `Decoding.SoloOutputBounded` | tools/axiom_engine.cpp:465-503 | a run's output respects both limits and grows by one token a step until it is done |
| `BlockPool.ExactlyOne` | tools/axiom_engine.cpp:133-134 | each block is exactly one of free, idle in the cache, and referenced |
| `BlockPool.PoolAccounts` | tools/axiom_engine.cpp:133-134 | free, idle and referenced blocks add up to the pool, so the free list never overflows |
| `BlockPool.ExhaustedMeansAllReferenced` | tools/axiom_engine.cpp:154-159 | allocation can fail exactly when every block is referenced |
| `BlockPool.ExhaustedNeeds` | tools/axiom_engine.cpp:154-174 | when it fails, the blocks others hold and the caller's own are the whole pool |
| `BlockPool.AssignConserves` | tools/axiom_engine.cpp:165-174 | a fresh block had no holder and gets exactly one |
| `BlockPool.ShareConserves` | tools/axiom_engine.cpp:388-392 | sharing a cached block adds exactly one reference |
| `BlockPool.DropConserves` | tools/axiom_engine.cpp:193-208 | dropping a reference returns the block exactly when it was the last one |
| `BlockPool.EvictConserves` | tools/axiom_engine.cpp:154-159 | evicting an idle cached block loses its entry and nothing else |
| `BlockPool.ViewStores` | tools/axiom_engine.cpp:165-174 | storing at the next position extends what the table shows by exactly that entry |
| `BlockPool.ViewUntouched` | tools/axiom_engine.cpp:542-546 | writing a block outside a table changes nothing seen through it |
| `BlockPool.PlaceIsDivMod` | tools/axiom_engine.cpp:514 | block and slot of a position are quotient and remainder |
| `Batching.CapCovers` | tools/axiom_engine.cpp:363-371 | the table capacity covers every position a request can reach |
| `Batching.WriteTargetIsPrivate` | tools/axiom_engine.cpp:508-515 | the block a step writes is held by its own sequence alone and cached nowhere |
| `Batching.ReusedView` | tools/axiom_engine.cpp:388-392 | reused blocks show the cache of the prompt's own first tokens |
| `Batching.FullBlockHolds` | tools/axiom_engine.cpp:428-432 | a full prompt block holds what its cache key promises |
| `Batching.ForwardKeepsSequences` | tools/axiom_engine.cpp:542-546 | one sequence's forward disturbs no other sequence |
| `Batching.StepSettles` | tools/axiom_engine.cpp:458-547 | choose, forward and advance together are one solo step |
| `Batching.FailureSettles` | tools/axiom_engine.cpp:508-545 | after a failed step sequences that had stopped stand where their solo run stands |
| `Batching.Engine.constructor` | tools/axiom_engine.cpp:60-138 | a new arena lists every block free, once |
| `Batching.Engine.PrefixLookup` | tools/axiom_engine.cpp:388-392 | reused are any number of leading full prompt blocks that are cached, even all of them, each now referenced once more |
| `Batching.Engine.BlockAlloc` | tools/axiom_engine.cpp:154-159 | a block nobody holds, or refusal with every block referenced |
| `Batching.Engine.EnsureBlock` | tools/axiom_engine.cpp:165-174 | the table grows by private blocks until it covers the position, or the pool is exhausted |
| `Batching.Engine.SeqRelease` | tools/axiom_engine.cpp:193-208 | every reference of the table is dropped exactly once |
| `Batching.Engine.PrefillToken` | tools/axiom_engine.cpp:423-425 | the prompt's next entry and logits are those of its own history, and nobody else's view moves |
| `Batching.Engine.Prefill` | tools/axiom_engine.cpp:393-427 | suffix-only prefill ends with the cache of the whole prompt, and with its logits exactly when the lookup left a token to compute, otherwise with what the buffer held; without a fault it fails only for want of blocks |
| `Batching.JoinsFaithfully` | tools/axiom_engine.cpp:344-439 | a prefilled sequence stands at the start of its solo run if and only if its logits are those of its prompt |
| `Batching.WholePromptReused` | tools/axiom_engine.cpp:388-401 | false case, for every prompt of one full block: a cache from which a lookup may reuse it all, leaving no token whose prefill writes logits |
| `Batching.ReusedWhole` | tools/axiom_engine.cpp:388-401 | that needs a prompt of full blocks whose last one is cached |
| `Batching.Engine.PrefixRegister` | tools/axiom_engine.cpp:428-432 | only full blocks that hold what their key says enter the cache |
| `Batching.Engine.Admit` | tools/axiom_engine.cpp:344-439 | the sequence joins or nothing changes; it joins at the start of its solo run when the lookup left a token to compute, which it does unless the prompt consists of full blocks and is cached whole; without a fault it is refused only if the prompt does not fit beside the blocks others reference |
| `Batching.Engine.Select` | tools/axiom_engine.cpp:462-504 | limits, sampling or argmax, stop tokens and the next input, in that order |
| `Batching.Engine.ChooseAll` | tools/axiom_engine.cpp:458-505 | every sequence picks once, and the active ones are those not done, in order |
| `Batching.Engine.GrowAll` | tools/axiom_engine.cpp:508-515 | every write position gets a block or the pool is exhausted |
| `Batching.Engine.ForwardAll` | tools/axiom_engine.cpp:542-546 | each active sequence gains its own next entry and logits, no other is disturbed |
| `Batching.Engine.Step` | tools/axiom_engine.cpp:451-548 | without a failure each tracked sequence takes exactly one step of its solo run; a failure needs a fault or an exhausted pool and disturbs only sequences that were to go on |
| `Batching.Engine.Retire` | tools/axiom_engine.cpp:595-605 | the first sequence of that id gives its blocks back and leaves; order and all others stay |
| `Batching.Engine.NextFinished` | tools/axiom_engine.cpp:584-593 | the first sequence in order that is done, or none |
| `Batching.Engine.Collect` | tools/axiom_engine.cpp:556-580 | the ids are those of the solo run, the text is their pieces cut to the buffer |
| `Batching.Engine.Transparent` | tools/axiom_engine.cpp:451-548 | in every reachable state a tracked sequence has the output of its solo run and sees exactly its own token history through its table |
| `Batching.Engine.NothingLeaks` | tools/axiom_engine.cpp:133-208 | in every reachable state free, idle and referenced blocks are the whole pool |
| `Speculation.LongestPrefixIff` | src/axiom_qwen38_mtp_speculative.cpp:1242-1256 | a number is the longest matching prefix exactly when all before it match and it does not |
| `Speculation.FindLongestPrefix` | src/axiom_qwen38_speculative.cpp:97-106 | the loop finds it |
| `Speculation.EmittedIsGreedy` | src/axiom_qwen38_speculative.cpp:1000-1033 | for any drafts, accepted drafts plus the target's token are what greedy decoding emits |
| `Speculation.BlockSteps` | src/axiom_qwen38_speculative.cpp:1000-1048 | committing anchor and accepted drafts is a step of greedy decoding with the reported positions |
| `Speculation.GreedyChains` | src/axiom_qwen38_speculative.cpp:1000-1033 | decoding on from where decoding stopped is decoding longer |
| `Speculation.ChainStep` | src/axiom_qwen38_speculative.cpp:1024-1033 | chaining through the continuation token takes up the greedy run where the last step left it |
| `Speculation.TargetModel.Commit` | include/axiom/qwen38_model.h:391-432 | commit consumes the transaction either way; only success says what is committed |
| `Speculative.BlockKeepsTaps` | src/axiom_qwen38_speculative.cpp:581-671 | the draft's taps stay those of the committed tokens, however tokens were split into blocks |
| `Speculative.CommittedBlock` | src/axiom_qwen38_speculative.cpp:1000-1048 | committing the same prefix on both sides keeps them in step and is a greedy step |
| `Speculative.Controller.Entry` | src/axiom_qwen38_speculative.cpp:108-156 | entry is granted only with equal positions and no open draft transaction, and refused without a fault only for lack of these |
| `Speculative.Controller.Prefill` | src/axiom_qwen38_speculative.cpp:537-864 | both sides take the tokens or neither does, unless poisoned; positions stay equal exactly if they were |
| `Speculative.Controller.PrefillToken` | src/axiom_qwen38_speculative.cpp:537-693 | the result is the target's greedy token after the grown history |
| `Speculative.Controller.PrefillBlock8` | src/axiom_qwen38_speculative.cpp:695-864 | eight tokens at once give the eight greedy rows |
| `Speculative.Controller.ValidVerify` | src/axiom_qwen38_speculative.cpp:315-347 | a verify result is accepted if and only if positions, shape, vocabulary, finiteness and bonus are right and the prefix is the longest matching one |
| `Speculative.Controller.AbortOpen` | src/axiom_qwen38_speculative.cpp:349-366 | nothing stays open, and success means nothing moved |
| `Speculative.Controller.Propose` | src/axiom_qwen38_speculative.cpp:914-998 | on success both sides have staged the same verified block; in no case has anything been committed |
| `Speculative.Controller.Commit` | src/axiom_qwen38_speculative.cpp:1000-1048 | both commit the same prefix or the controller is poisoned |
| `Speculative.Controller.Step` | src/axiom_qwen38_speculative.cpp:866-1075 | success emits greedy tokens and advances both sides by one plus the accepted prefix; failure has a named reason and moves nothing or poisons |
| `Speculative.Controller.Decode` | src/axiom_qwen38_speculative.cpp:866-1075 | over whole runs the emitted tokens are the one-token greedy decode for any drafts, and a run stops early only with a reason |
| `MtpSpeculative.PairsExtend` | src/axiom_qwen38_mtp_speculative.cpp:117-123 | the cached pairs do not depend on how tokens were split into blocks |
| `MtpSpeculative.TookAligned` | src/axiom_qwen38_mtp_speculative.cpp:1267-1328 | taking a block keeps the cache and the pending row those of the committed tokens |
| `MtpSpeculative.MtpCompute.CommitPrefix` | include/axiom/qwen38_mtp_compute.h:344-361 | only a successful commit moves the committed position |
| `MtpSpeculative.Controller.StageBlock` | src/axiom_qwen38_mtp_speculative.cpp:1267-1305 | staged are the tokens paired with the previous hidden states; the current pending row is untouched |
| `MtpSpeculative.Controller.CommitBlock` | src/axiom_qwen38_mtp_speculative.cpp:1312-1328 | draft then target; on success the other pending buffer becomes current, a target failure poisons |
| `MtpSpeculative.Controller.TakeBlock` | src/axiom_qwen38_mtp_speculative.cpp:1286-1328 | both sides take the verified prefix or nothing that counts changes |
| `MtpSpeculative.Controller.PrefillToken` | src/axiom_qwen38_mtp_speculative.cpp:1074-1164 | one prompt token on both sides; cache, pending row and equal positions are kept through every failure that does not poison, the selection of the device included |
| `MtpSpeculative.Controller.CheckAccepted` | src/axiom_qwen38_mtp_speculative.cpp:1242-1256 | passes if and only if the positions are right and the reported prefix is the longest matching one |
| `MtpSpeculative.Controller.DraftAll` | src/axiom_qwen38_mtp_speculative.cpp:1206-1224 | seven chained drafts change staged pairs only |
| `MtpSpeculative.Controller.Propose` | src/axiom_qwen38_mtp_speculative.cpp:1194-1257 | success yields a verified block with its true acceptance; nothing is committed in any case |
| `MtpSpeculative.Controller.Accept` | src/axiom_qwen38_mtp_speculative.cpp:1265-1354 | the proposal's pairs are dropped and the verified ones taken in their place, as a greedy step |
| `MtpSpeculative.Controller.Step` | src/axiom_qwen38_mtp_speculative.cpp:1166-1354 | as for the other controller, with the cache holding each token beside its predecessor's hidden state |
| `MtpSpeculative.Controller.Decode` | src/axiom_qwen38_mtp_speculative.cpp:1166-1354 | over whole runs the emitted tokens are the one-token greedy decode, and a run stops early only with a reason |
| `SwarmModel.WaveStateUpdate` | src/axiom_qwen38_swarm_scheduler.cpp:281-341 | a wave's state depends on its own tasks only |
| `SwarmModel.CountUpdate` | src/axiom_qwen38_swarm_scheduler.cpp:136-145 | replacing one record changes a recount by what that record contributes |
| `SwarmInvariant.Conservation` | src/axiom_qwen38_swarm_scheduler.cpp:408-490 | submitted equals the five final counters plus waiting plus active |
| `SwarmInvariant.AttemptsBounded` | src/axiom_qwen38_swarm_scheduler.cpp:388-406 | attempts never exceed the sum of the retry policies |
| `SwarmInvariant.RetryDelayExact` | src/axiom_qwen38_swarm_scheduler.cpp:364-386 | the delay is the exact doubling cut at the 64-bit maximum and at the cap |
| `SwarmInvariant.SaturationExact` | src/axiom_qwen38_swarm_scheduler.cpp:372-380 | the overflow test fires exactly when the product overflows |
| `SwarmTransitions.FinishKeeps` | src/axiom_qwen38_swarm_scheduler.cpp:408-490 | ending an attempt keeps all counters; only its own wave's state is left to recompute |
| `SwarmTransitions.StartKeeps` | src/axiom_qwen38_swarm_scheduler.cpp:798-904 | admission keeps every counter, limit and wave state |
| `SwarmTransitions.SubmitKeeps` | src/axiom_qwen38_swarm_scheduler.cpp:712-796 | a submission keeps the invariant, the queue bound included |
| `SwarmTransitions.CancelWaitingKeeps` | src/axiom_qwen38_swarm_scheduler.cpp:499-522 | cancelling a waiting task keeps the counters |
| `SwarmTransitions.RecomputeKeeps` | src/axiom_qwen38_swarm_scheduler.cpp:281-341 | a recomputed wave has the from-scratch state again |
| `SwarmTransitions.CreateWaveKeeps` | src/axiom_qwen38_swarm_scheduler.cpp:666-710 | a new wave's links lead to smaller ids and its state is right |
| `SwarmTransitions.FlagKeeps` | src/axiom_qwen38_swarm_scheduler.cpp:1063-1075 | flagging a wave makes only that wave's state stale |
| `SwarmAncestry.InvDescends` | src/axiom_qwen38_swarm_scheduler.cpp:210-279 | in every reachable state parent links strictly decrease in id |
| `SwarmAncestry.WaveIsDescendant` | src/axiom_qwen38_swarm_scheduler.cpp:210-241 | the walk answers ancestry exactly; the visited set is never what stops it |
| `SwarmAncestry.TaskBelongs` | src/axiom_qwen38_swarm_scheduler.cpp:243-279 | a task belongs exactly when its wave, its parent wave or a task above it lies in the tree |
| `SwarmScheduler.FollowsChain` | src/axiom_qwen38_swarm_scheduler.cpp:492-543 | over whole runs: ended tasks never change, flagged ones start no attempt and end cancelled |
| `SwarmScheduler.AfterFinishKeeps` | src/axiom_qwen38_swarm_scheduler.cpp:408-490 | finish_attempt with its wave keeps the whole invariant |
| `SwarmScheduler.AfterCancelKeeps` | src/axiom_qwen38_swarm_scheduler.cpp:492-543 | cancelling leaves the task ended or running and flagged, and touches no other |
| `SwarmScheduler.StaysRecomputable` | src/axiom_qwen38_swarm_scheduler.cpp:281-341 | the early returns of the recomputation leave a state that is already right |
| `SwarmScheduler.Scheduler.constructor` | src/axiom_qwen38_swarm_scheduler.cpp:630-632 | an empty scheduler satisfies the invariant |
| `SwarmScheduler.Scheduler.RecomputeWave` | src/axiom_qwen38_swarm_scheduler.cpp:281-341 | one pass computes the from-scratch state |
| `SwarmScheduler.Scheduler.FinishAttempt` | src/axiom_qwen38_swarm_scheduler.cpp:408-490 | the attempt ends, retries exactly when the policy says, and the invariant holds |
| `SwarmScheduler.Scheduler.OverdueTasks` | src/axiom_qwen38_swarm_scheduler.cpp:547-554 | exactly the running tasks whose deadline has passed, in id order |
| `SwarmScheduler.Scheduler.ExpireRunning` | src/axiom_qwen38_swarm_scheduler.cpp:544-571 | every overdue task ends by its deadline, cancelled if flagged, and no other record changes |
| `SwarmScheduler.Scheduler.RegisterAgent` | src/axiom_qwen38_swarm_scheduler.cpp:635-664 | refused exactly without capacity; otherwise one idle agent more |
| `SwarmScheduler.Scheduler.CreateWave` | src/axiom_qwen38_swarm_scheduler.cpp:666-710 | refused exactly for a zero limit or a missing parent |
| `SwarmScheduler.Scheduler.QueuedTasks` | src/axiom_qwen38_swarm_scheduler.cpp:136-145 | the number of waiting tasks |
| `SwarmScheduler.Scheduler.Check` | src/axiom_qwen38_swarm_scheduler.cpp:712-780 | accepts exactly the submissions the rules allow |
| `SwarmScheduler.Scheduler.Submit` | src/axiom_qwen38_swarm_scheduler.cpp:712-796 | accepted exactly when acceptable, with the next place in the queue; a refusal counts as rejected and changes nothing else |
| `SwarmScheduler.Scheduler.SelectAgent` | src/axiom_qwen38_swarm_scheduler.cpp:806-815 | the first agent with room, or none has |
| `SwarmScheduler.Scheduler.SelectTask` | src/axiom_qwen38_swarm_scheduler.cpp:820-847 | the eligible task of highest priority and oldest place, or none is eligible |
| `SwarmScheduler.Scheduler.AdmitNext` | src/axiom_qwen38_swarm_scheduler.cpp:798-904 | after the sweep, the first eligible task starts on the first agent with room; nothing starts only for lack of capacity, agents or tasks |
| `SwarmScheduler.Scheduler.ReportProgress` | src/axiom_qwen38_swarm_scheduler.cpp:906-960 | tokens never move back; reaching the budget ends an unflagged attempt |
| `SwarmScheduler.Scheduler.Complete` | src/axiom_qwen38_swarm_scheduler.cpp:962-1025 | a flag turns any outcome into cancellation, an overdrawn budget into its end; retries follow the policy |
| `SwarmScheduler.Scheduler.CancelTask` | src/axiom_qwen38_swarm_scheduler.cpp:1027-1043 | the task is ended or running and flagged, and the answer says whether it was live |
| `SwarmScheduler.Scheduler.CancelWave` | src/axiom_qwen38_swarm_scheduler.cpp:1045-1097 | every task whose ancestry reaches the wave is ended or running and flagged, no other task changes, exactly the selected waves are flagged, and the count is that of the live ones |
| `SwarmCancellation.EndedWaveKeptIff` | src/axiom_qwen38_swarm_scheduler.cpp:1045-1097 | a wave that had ended keeps its state through cancel_wave if and only if it is not selected or had ended cancelled; a selected one is cancelled |
| `SwarmCancellation.SucceededWave` | src/axiom_qwen38_swarm_scheduler.cpp:281-341 | false case: a state of the scheduler with a succeeded wave, which cancelling therefore turns into a cancelled one |
| `SwarmCancellation.OtherFlagsIgnored` | src/axiom_qwen38_swarm_scheduler.cpp:764-847 | neither acceptance nor admission looks at the cancel flag of any wave but the task's own |
| `SwarmCancellation.LateTask` | src/axiom_qwen38_swarm_scheduler.cpp:764-847 | false case: a task submitted below a cancelled wave is accepted, belongs to its tree, and may start if and only if its own wave has room |
| `SwarmCancellation.OwnWaveRefuses` | src/axiom_qwen38_swarm_scheduler.cpp:740-763 | a task of the cancelled wave itself is refused |
| `SwarmCancellation.CancelledWave` | src/axiom_qwen38_swarm_scheduler.cpp:764-796 | a state of the scheduler in which such a task is accepted |
| `SwarmScheduler.Scheduler.Tick` | src/axiom_qwen38_swarm_scheduler.cpp:1099-1104 | sweeps exactly the overdue tasks and names them |
| `SwarmScheduler.Scheduler.SetAgentState` | src/axiom_qwen38_swarm_scheduler.cpp:1106-1132 | every state but busy may be set on an existing agent |
| `JsonStrings.CodePointOfUtf8` | tools/axiom_aliced_json.h:116-132 | the encoding loses nothing and its first byte announces its length |
| `JsonStrings.AsciiEscapeReads` | tools/axiom_aliced_json.h:166-191 | a code point spelled as one escape or as a surrogate pair reads as its UTF-8 bytes; a high surrogate before another escape is joined if and only if that is a low one, refused if and only if that is malformed, and kept alone otherwise |
| `JsonStrings.StringReads` | tools/axiom_aliced_json.h:150-203 | a written string of any bytes reads back and ends at its closing quote |
| `JsonNumbers.IntReads` | tools/axiom_aliced_json.h:205-244 | every 64-bit integer reads back as that integer, never as a double |
| `JsonNumbers.DoubleReads` | tools/axiom_aliced_json.h:205-244 | a double whose text is a complete numeral with fraction or exponent reads back as a double |
| `JsonNumbers.WholeIsInt` | tools/axiom_aliced_json.h:205-233 | a lexeme without fraction and exponent is an integer numeral |
| `JsonText.NewNamesMeans` | tools/axiom_aliced_json.h:83-92 | names are accepted one by one exactly when no two are equal |
| `JsonText.ValueReads` | tools/axiom_aliced_json.h:246-308 | the text of a value reads back as it, ends where the text ends, and fails exactly when nested deeper than allowed |
| `JsonText.ParseOfText` | tools/axiom_aliced_json.h:311-405 | the round trip, exactly for at most 64 levels of nesting |
| `JsonText.TextInjective` | tools/axiom_aliced_json.h:374-405 | two values with one text are one value, however deep |
| `JsonText.TextMembership` | tools/axiom_codex_schema.h:104-107 | looking a value up by its text finds it exactly when it is there |
| `JsonStability.ReadValueGood` | tools/axiom_aliced_json.h:246-308 | whatever the parser builds has 64-bit integers, distinct names and allowed depth |
| `JsonStability.Stable` | tools/axiom_aliced_json.h:311-405 | for any accepted text, writing the value and reading it again gives the same value |
| `JsonStability.PrintableWf` | tools/axiom_aliced_json.h:83-92 | such values never hold two members of one name |
| `JsonParser.Parser.SkipSpace` | tools/axiom_aliced_json.h:112-114 | the position moves over white space and nothing else |
| `JsonParser.Parser.ParseHex` | tools/axiom_aliced_json.h:134-148 | four digits of either case give their value, anything else is refused |
| `JsonParser.Parser.ParseUnicode` | tools/axiom_aliced_json.h:170-191 | pairs are joined, a high surrogate without a low one is rewound and kept alone |
| `JsonParser.Parser.ParseEscape` | tools/axiom_aliced_json.h:157-195 | one escape, with its bytes and end, or refusal, as the grammar has it |
| `JsonParser.Parser.ParseString` | tools/axiom_aliced_json.h:150-203 | the string the text holds at the position, or refusal exactly when it holds none |
| `JsonParser.Parser.ParseNumber` | tools/axiom_aliced_json.h:205-244 | the longest numeral, an integer when it fits 64 bits, otherwise the library's double |
| `JsonParser.Parser.ParseValue` | tools/axiom_aliced_json.h:246-308 | agrees with the grammar on value, end position and refusal at every depth |
| `JsonParser.Parser.ParseItems` | tools/axiom_aliced_json.h:277-286 | the items in order up to the closing bracket, or refusal |
| `JsonParser.Parser.ParseMembers` | tools/axiom_aliced_json.h:256-270 | members in order, a repeated name replacing the earlier value in place |
| `JsonParser.Parser.ParseAll` | tools/axiom_aliced_json.h:311-323 | one value and only white space after it |
| `JsonParser.Writer.WriteString` | tools/axiom_aliced_json.h:327-355 | appends the quoted, escaped string and nothing else |
| `JsonParser.Writer.Write` | tools/axiom_aliced_json.h:374-405 | appends the text that the round trip is about |
| `Sha256.FoldAppend` | src/axiom_sha256.cpp:109-137 | folding in two parts is folding at once (section 6.2 of FIPS 180-4) |
| `Sha256.LengthFieldExact` | src/axiom_sha256.cpp:140-159 | the length field is the bit count if and only if the message is shorter than 2^61 bytes |
| `Sha256.BigEndianReads` | src/axiom_sha256.cpp:140-159 | the bytes read back as the number modulo their range |
| `Sha256.Stream.constructor` | src/axiom_sha256.cpp:56-58 | a new stream has absorbed nothing |
| `Sha256.Stream.TopUp` | src/axiom_sha256.cpp:116-127 | a partly filled buffer is topped up and folded exactly when full |
| `Sha256.Stream.Whole` | src/axiom_sha256.cpp:128-132 | whole blocks are folded straight from the input |
| `Sha256.Stream.Update` | src/axiom_sha256.cpp:109-137 | the absorbed message grows by exactly the data; the stream ends with a zero digest if and only if the pointer is null with a size or the byte counter would overflow |
| `Sha256.Stream.PadZeros` | src/axiom_sha256.cpp:140-152 | marker and zeros reach the length field, over one block more when needed (section 5.1.1 of FIPS 180-4) |
| `Sha256.Stream.Finish` | src/axiom_sha256.cpp:140-159 | the digest of everything absorbed, the same at every later call |
| `Sha256.HashPieces` | src/axiom_sha256.cpp:109-159 | any split of a message into updates gives the one-shot hash |
| `WireNames.Canonical` | tools/axiom_codex_provider.h:42-52 | the pass accepts exactly names of 1 to 64 word characters, a letter first, no double and no final underscore |
| `WireNames.WireComponent` | tools/axiom_codex_provider.h:159-171 | the loop computes the escape |
| `WireNames.UnescapeEscape` | tools/axiom_codex_provider.h:159-171 | the byte escape has a left inverse |
| `WireNames.EscapeTidy` | tools/axiom_codex_provider.h:159-171 | escapes hold single inner underscores only |
| `WireNames.ParseReadableBack` | tools/axiom_codex_provider.h:176-182 | the readable form is parsed back into its two components |
| `WireNames.ReadableInjective` | tools/axiom_codex_provider.h:176-182 | the undigested form determines name and scope |
| `WireNames.KeyInjective` | tools/axiom_codex_provider.h:186-188 | different identities are digested from different keys |
| `WireNames.DigestedCanonical` | tools/axiom_codex_provider.h:189-199 | a digested name is canonical whatever its stem |
| `WireNames.WireIsCanonical` | tools/axiom_codex_provider.h:173-201 | every produced name is canonical, so the exception after it never fires |
| `WireNames.OnlyDigestsCollide` | tools/axiom_codex_provider.h:173-208 | plain, readable and digested names never meet: only two digests can |
| `WireNames.ToolWireMap.MakeWire` | tools/axiom_codex_provider.h:173-200 | fails exactly when a digest is needed and the library fails |
| `WireNames.ToolWireMap.Bind` | tools/axiom_codex_provider.h:173-208 | refuses exactly an empty name, a failed digest or a name another identity holds; otherwise the map gains this binding only |
| `WireNames.ToolWireMap.Restore` | tools/axiom_codex_provider.h:504-519 | a call is a search call exactly under the wire name of the client's tool search; any other comes back changed only under the wire name of an identity, and then with that identity's name and namespace |
| `WireNames.ToolWireMap.RestoresOwn` | tools/axiom_codex_provider.h:515-519 | under the wire name of an identity without digest a call comes back as that identity, or untouched if it was never bound |
| `WireNames.ToolWireMap.BindAndRestore` | tools/axiom_codex_provider.h:173-208 | binding and restoring is the identity on name and namespace, and fails exactly when bind refuses |
| `WireNames.ToolWireMap.BindSearch` | tools/axiom_codex_provider.h:241-251 | the client's tool search is bound like any tool, and from then on exactly the calls under its name are search calls |
| `WireNames.ToolWireMap.BindAll` | tools/axiom_codex_provider.h:173-208 | calls under all names bound in a run are restored to their own identities, equal names mean equal identities, and a run stops early only at an identity that bind refuses |
| `SessionNames.ExactComponents` | src/axiom_qwen38_session_store.cpp:312-345 | accepts exactly the given number of dotted positive 64-bit numbers without leading zeros |
| `SessionNames.TombstoneRecognised` | src/axiom_qwen38_session_store.cpp:365-380 | a generated tombstone name is recognised with its own namespace if and only if its counters are positive 64-bit numbers |
| `SessionNames.RecognisedIsTombstone` | src/axiom_qwen38_session_store.cpp:365-380 | nothing but a generated name is recognised |
| `SessionNames.LiveIsNotTombstone` | src/axiom_qwen38_session_store.cpp:302-311 | a live namespace name is never a tombstone |
| `SessionNames.ReadGeneration` | src/axiom_qwen38_session_store.cpp:285-299 | the digit loop refuses exactly what does not fit 64 bits |
| `SessionNames.GenerationRecognised` | src/axiom_qwen38_session_store.cpp:264-300 | a generation file is read back as its generation, for each of the three suffixes |
| `SessionNames.RecognisedIsGeneration` | src/axiom_qwen38_session_store.cpp:264-300 | nothing else is read as one |
| `SessionGc.MarkExpired` | src/axiom_qwen38_session_store.cpp:1270-1284 | marks exactly the expired unprotected sessions and counts them |
| `SessionGc.Sort` | src/axiom_qwen38_session_store.cpp:1285-1292 | a permutation in order of last use, then name |
| `SessionGc.MarkOldest` | src/axiom_qwen38_session_store.cpp:1293-1305 | marks the oldest unprotected ones up to the least cut that meets the cap |
| `SessionGc.ChooseVictims` | src/axiom_qwen38_session_store.cpp:1270-1305 | the chosen list is the sessions in collection order, marked exactly as expiry and the least sufficient cut say |
| `SessionGc.Policies` | src/axiom_qwen38_session_store.cpp:1270-1305 | protected sessions never go, expired ones always, and without a cap only those |
| `SessionGc.Capped` | src/axiom_qwen38_session_store.cpp:1296-1305 | the cap is met unless only protected sessions are left, and is never overshot |
| `SessionGc.OldestFirst` | src/axiom_qwen38_session_store.cpp:1285-1305 | a session that goes for the cap is older than every unprotected one that stays |
| `SessionRoot.SafeIffSurvivorsWhole` | src/axiom_qwen38_session_store.cpp:1308-1342 | the collector's invariant is exactly: after any crash every live-named namespace is complete |
| `SessionRoot.UnlinkSafeIffDurable` | src/axiom_qwen38_session_store.cpp:596-617 | removing a file of a tombstone is safe if and only if that tombstone's rename is durable |
| `SessionRoot.UncoveredTombstone` | src/axiom_qwen38_session_store.cpp:1258-1268 | false case: a run whose first tombstone has a rename that an earlier run failed to sync loses files of a session a crash brings back |
| `SessionRoot.RenamedSafe` | src/axiom_qwen38_session_store.cpp:1310-1325 | taking a session out of sight is safe also while earlier renames are uncovered |
| `SessionRoot.SupersededExactly` | src/axiom_qwen38_session_store.cpp:1077-1082 | superseded are exactly the generation files below the committed generation |
| `SessionRoot.Collector.RemoveNamespace` | src/axiom_qwen38_session_store.cpp:568-639 | whatever fails, only that tombstone shrinks; no moment endangers a session unless the tombstone has files and an uncovered rename, and then finishing it does; without a fault it is gone and every rename covered |
| `SessionRoot.Collector.FinishTombstones` | src/axiom_qwen38_session_store.cpp:1258-1268 | tombstones of earlier runs are finished in order and nothing live changes; only the first can meet an uncovered rename |
| `SessionRoot.Collector.RemoveSession` | src/axiom_qwen38_session_store.cpp:1310-1341 | out of sight, durably, and only then removed: no crash leaves a live namespace partly deleted |
| `SessionRoot.Collector.RemoveVictims` | src/axiom_qwen38_session_store.cpp:1307-1343 | on success exactly the marked sessions are gone; on failure no unmarked one has changed |
| `SessionRoot.Collector.PruneStaleSessions` | src/axiom_qwen38_session_store.cpp:1113-1343 | the whole run: exactly scanned tombstones and chosen victims go; no moment endangers a session unless the first scanned tombstone has files and an uncovered rename, and a run that succeeds from there did; it fails only for a zero clock, a fault or a tombstone the scan did not accept |
| `SessionRoot.Collector.Restart` | src/axiom_qwen38_session_store.cpp:1258-1268 | any tree a crash may leave satisfies the invariant again |
| `SessionRoot.Namespace.PruneObsolete` | src/axiom_qwen38_session_store.cpp:1035-1111 | only superseded generation files that are regular go, and on success all of them; the number removed is reported |
| `SplitPlan.SpanBytes` | tools/axiom_model_split_plan.cpp:376-381 | the 64-bit sum over the range, zero for what is not a range |
| `SplitPlan.NoWrap` | tools/axiom_model_split_plan.cpp:376-381 | where all layers together fit 64 bits every such sum is the true one |
| `SplitPlan.FindCut` | tools/axiom_model_split_plan.cpp:432-442 | the first of the closest feasible cuts |
| `SplitPlan.ByteBalancedSpans` | tools/axiom_model_split_plan.cpp:419-449 | refused exactly for no parts, too few layers or a 64-bit total of zero; otherwise contiguous non-empty spans over all layers, each cut the first closest to its ideal in 64-bit sums |
| `SplitPlan.WrappedTotalRefused` | tools/axiom_model_split_plan.cpp:423-425 | false case: two layers of 2^63 bytes are refused as if they had none |
| `SplitPlan.OffIsTrue` | tools/axiom_model_split_plan.cpp:432-442 | where the total fits 64 bits the cut is closest in true bytes |
| `SplitPlan.CoverReordered` | tools/axiom_model_split_plan.cpp:647-650 | the order of spans does not matter to what they cover |
| `SplitPlan.CoverChains` | tools/axiom_model_split_plan.cpp:652-668 | sorted spans that cover each layer once form a gapless chain |
| `SplitPlan.ChainCovers` | tools/axiom_model_split_plan.cpp:652-668 | a gapless chain covers each layer once |
| `SplitPlan.Scan` | tools/axiom_model_split_plan.cpp:652-668 | the scan accepts exactly gapless chains with matching bytes whose workers fit the inventory |
| `SplitPlan.Validate` | tools/axiom_model_split_plan.cpp:626-668 | accepts if and only if there are spans, they partition the layers with matching bytes, and every worker owns its cache, is in the inventory under its endpoint and has the memory |
| `SplitPlan.IndexNodes` | tools/axiom_model_split_plan.cpp:626-628 | the inventory by name: the last row of each name counts |
| `SplitPlan.ChainBytes` | tools/axiom_model_split_plan.cpp:652-668 | the bytes stated by an accepted plan add up to those of the model, nothing lost and nothing twice |
| `SplitPlan.EmitPlan` | tools/axiom_model_split_plan.cpp:456-469 | a balanced plan that fits its workers, or refusal for too few layers, no bytes or a span too large for its worker |
| `SplitPlan.EmittedValidates` | tools/axiom_model_split_plan.cpp:456-668 | an emitted plan passes the validator if and only if for each worker the last inventory row of its name has its endpoint and enough memory |
| `SplitPlan.DistinctRows` | tools/axiom_model_split_plan.cpp:626-628 | with distinct names that is always so |
| `SplitPlan.PlanIsExact` | tools/axiom_model_split_plan.cpp:419-449 | a planned split is such a partition |

## Left out

- Device sessions, CUDA graphs and streams of the engine and of both speculative controllers: acceptance and state live in kernels that are not part of this model.
- The io_uring rings of the KV tier: a submitted write is one that runs at once and whose outcome is fetched later.
- Checksums and file formats of header, journal and manifest: each is a flag that says whether the bytes pass.
- KV sessions of the native MTP engine, which persist fewer draft layers per page than the five modelled.
- KvTier.Tier.TransactionBegin: takes the two sides of the transaction as a ghost parameter; that the old side is idle is what `SettledStartsNext` provides.
- KvTier.Tier.TransactionRecoverFile: stated for the transactions that `PublishedRecoversIff` names, and for one append at a time in a file.
- KvTierRuns.Run: recovery runs after a restart of the machine; recovery in the same process is `TransactionRecoverFile`, with its exact condition. The first save of a session, which has no old side, is not modelled.
- The native tool-call argument validator, which enforces fewer keywords than the original-schema validator that `Sat` models.
- The notes that hoisting collects: only the hoisted schema is modelled.
- SchemaLowering.LowerSchema: exact for clean values, by the exact condition above; the depth limit of the argument validator is not modelled.
- SchemaAlternatives.LowerAlternatives: its own contract is about values without NULs in names; for all values the exact condition is `ScatteredIff`.
- SchemaLowering.MergeCandidates: compares values where the program compares their texts, which `JsonText.TextMembership` proves to be the same for every value the parser yields.
- Schema numbers are exact reals; double rounding of bounds and of large integers is not modelled.
- Batching.Engine.Step: token streaming callbacks and statistics are not modelled.
- The sampler's arithmetic: a function of logits, parameters and random state.
- Scheduler events, revision numbers, names, reasons and snapshots.
- Mutexes: operations are atomic.
- ajson_dump_double and strtod: two functions related by `Spells`, which is what the precision loop of the first one searches for.
- Error message texts of the JSON parser and of every other component.
- The compression function of SHA-256 and any claim about collisions.
- WireNames.ToolWireMap.Restore: the traversal of response objects and the parsing of search arguments are not modelled, only what happens to the name and namespace of one call.
- parse_session_artifact, scan_gc_namespace and the scan budgets of the session store: the collector receives what the scan accepted.
- The save and load paths of session manifests except for the publishing steps.
- SessionRoot.Collector.PruneStaleSessions: at most 2^64 tombstone names per process, and no session is created while it runs.
- SplitPlan.EmitPlan: model metadata, fingerprints, and reading and writing of plans and inventories are not modelled.
- Weight loaders, image and video code, smoke and benchmark tools, admission tables: they wrap foreign libraries, move bytes or hold fixed tables.
