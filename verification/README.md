# PaT-CH in Dafny

This project models the parts of PaT-CH that change state and proves what holds of them
over every input, every run and every interleaving: the configuration tree and its
concurrent loading (`pkg/util/config.go`, `internal/setup/prepare.go`), the user table
with its read-through cache (`pkg/storage/data/userdb.go`), the DDL printer
(`pkg/storage/data/helper.go`) and the transaction wrapper (`pkg/storage/data/sql.go`).
`dafny verify dfyconfig.toml` checks all of it.

## How it is built

* **Configuration.** `Views` describes what can be read from a configuration: a map from
  paths of lower-cased components to a plain value or "is a configuration". `Graphs` has
  configurations as graphs of nodes, generic in the node type, with the walk of `Get` and
  the update of `Set`. `ConfigTree` is the class: its methods update stores in place and
  are proved against the graph functions; `Trees` proves that on unshared trees these are
  the view updates. `Merge` (with `MergeOrder`) and `Mounts` (with `MountSets`) treat the
  two ways of combining configurations.
* **Concurrent `Set`.** `ConcurrentSet` is a step machine: one locked section is a step,
  and the unlocked re-read of the child that follows it is another. `Linearize*` hold the
  invariant: a log of returned calls, the sequential view at every position of the log, and
  an address and a position for every node. A detached subtree stays at the position just
  before the call that overwrote it, and calls that finish inside it enter the log there.
  `Linearizable` and `Loading` draw the conclusions. `Locks` refines the machine with
  read-write locks and adds readers, and `Deadlock` says when they block each other.
* **Loading pipeline.** `EnvVars` has the text part, `Pipeline` the goroutines, channels
  and the wait group around the set machine, `Panics` says when a load can go wrong,
  and `LoadedValues` what it leaves behind, variable by variable.
* **Users.** `Users` gives the calls as functions on table and cache once pending cache
  writes have run, `UserStore` the object whose methods leave those writes to goroutines,
  and `UserSchedules` the same calls cut into single accesses under arbitrary schedules
  (`UserSteps` puts them together again). `UserAnswers` tells what the calls answer and
  write in terms of rows, fields and key texts.
* **Schema and transactions.** `Schema` and `SchemaParser`, with `SchemaText` and
  `SchemaAlike` for what the text says and what it identifies; `Sql`, where a transaction is
  an object with its own copy of the data and a status.

Choices that matter when comparing with the source:

* `strings.Split` never returns an empty list, so the `len(key) == 0` branches of `Get`
  and `Set` are dead and not modelled (`Text.Split` always returns at least one part).
* Go ranges over maps in any order. Methods pick keys nondeterministically; functions take
  the order as an argument.
* Panics become outcomes: a failing `NewConfig` inside `MergeDefault` gives the outcome
  `Panicked`, and the pipeline has a `panicked` flag, which stops it.
* Logging is left out everywhere; the clock, generated ids, password hashes, readable
  files and server faults are parameters.
* Calls are proved for the values the program stores: text, numbers, booleans, and nested
  configurations.

What holds only under a condition, with the condition proved exact:

* The order of a map of plain default values is irrelevant exactly when some absent default
  is blocked (then every order fails) or no two absent defaults hide each other
  (`MergeOrder.OrderIrrelevantExactly`); `Merge.MergeOrderMatters` is an instance.
* Some schedule of a load panics exactly when a selected variable does not parse or one
  variable's path lies strictly above another's (`Panics.PanicFreeExactly`); concurrent
  calls of `Set` on an empty configuration can fail exactly in the latter case
  (`Loading.NeverFailsExactly`). Everything else about the pipeline holds regardless.
* Readers and writers can deadlock exactly when a configuration at or below the root is
  nested in itself (`Deadlock.DeadlockFreeExactly`).
* A deletion hides the user from lookups by id exactly when it was not answered from the
  cache while the id's key was cached (`Users.DeletionHidesIdExactly`): a user read back
  from the cache has lost its id, so the wrong key is cleared. Names and emails are always
  hidden (`Users.DeletionHidesNames`). `TestUserDB` in `pkg/storage/data/user_test.go`
  expects the id to be hidden too; `Users.DeletedUserStillFound` is a run on which it is not.
* After an update the replaced name, or email, is no longer answered exactly when it was not
  cached (`Users.UpdateHidesOldKeysExactly`); `Users.RenamedUserStillFound` is a run on
  which it is. `Users.UpdateStaysExactly` says when an update leaves all such lookups
  exact, also for a record that has lost its id.
* A name list holding only the empty name prints like the empty list; the schema theorem
  identifies the two.

## Model

| member | source | states |
|---|---|---|
| Text.JoinOfSplit | pkg/util/config.go:348-355 | splitting gives separator-free parts that join back to the text, one part exactly when the separator does not occur |
| Text.SplitOfJoinIff | pkg/util/config.go:289 | joining then splitting is the identity exactly on non-empty lists of separator-free parts |
| Text.SplitOffFirst | pkg/util/config.go:348-355 | succeeds exactly when the separator occurs; the first part is free of it and the two parts rejoin to the input |
| Text.CaseVariants | pkg/util/config.go:102-115 | two keys name the same path exactly when they are equally long and differ, character by character, at most in the case of a letter |
| Text.PathSpelled | pkg/util/config.go:102-152 | a path's components contain no dot and no capital, and joined by dots they are the key with each capital replaced by its small letter |
| Trees.SetSucceeds | pkg/util/config.go:150-173 | Set succeeds exactly when no plain value sits strictly above the path, on any graph |
| Trees.SetFailsExactly | pkg/util/config.go:132-173 | the failing inputs of Set exactly, and a failing Set has created and changed nothing |
| Trees.SetRefines | pkg/util/config.go:150-173 | on an unshared tree Set is the update of the view, for plain values and for separate configurations |
| Trees.SetThenGet | pkg/util/config.go:102-173 | after a successful Set every case variant reads the value, paths above read as configurations, paths below read nothing, all other paths read as before |
| Trees.SetPlaces | pkg/util/config.go:150-173 | Set keeps the graph an unshared tree; the new nodes lie, in order, at the last proper prefixes of the path |
| ConfigTree.Config.Get | pkg/util/config.go:102-130 | the method reads the path of the lower-cased components |
| ConfigTree.Config.Set | pkg/util/config.go:132-148 | nil is refused without effect; otherwise the new heap is the graph update with freshly created nodes only |
| ConfigTree.Config.SetRecursive | pkg/util/config.go:150-173 | the in-place walk performs the graph update |
| ConfigTree.Config.MergeInConfig | pkg/util/config.go:175-183 | replaces, by reference, a configuration that is there, and refuses exactly when there is none |
| Graphs.MountWrites | pkg/util/config.go:175-183 | mounting rewrites exactly one entry, the one at the end of the path, or nothing |
| ConfigTree.Config.MergeDefault | pkg/util/config.go:205-218 | the view and the outcome are those of the merge in the order in which the entries were visited, every entry once |
| ConfigTree.Config.NewConfig | pkg/util/config.go:38-54 | a fresh tree holding the merge of its initial values into nothing |
| ConfigTree.Config.Sprint | pkg/util/config.go:296-310 | terminates on every acyclic graph and prints each entry once, nested ones recursively, in some order |
| ConfigTree.ShownSpelled | pkg/util/config.go:305 | how texts, booleans and, digit by digit, numbers are printed |
| ConfigTree.PrintsSpelled | pkg/util/config.go:300-307 | the whole text of a configuration with one value, and of one nested around it |
| ConfigTree.PrepareSubsystemInit | internal/setup/prepare.go:72-92 | mounts exactly the listed systems that main has into the subsystem's configuration, ignoring failures |
| Mounts.MissingIsSkipped | internal/setup/prepare.go:83-89 | a system that main or the subsystem lacks does not stop the later ones |
| Merge.MergeConserves | pkg/util/config.go:205-218 | a merge, successful or not, keeps every earlier value and configuration |
| Merge.MergeCompletes | pkg/util/config.go:205-218 | after a successful merge every default key reads as something |
| Merge.EntryOutcomes | pkg/util/config.go:205-218 | which defaults are refused, blocked or make NewConfig panic |
| Merge.MergeIdempotent | pkg/util/config.go:205-218 | a second run, in any order, succeeds and changes nothing |
| Merge.MergeCharacter | pkg/util/config.go:205-218 | over keys that are pairwise incomparable at every level, success and result are given by an order-free description |
| Merge.MergeOrderIndependent | pkg/util/config.go:205-218 | over such keys either every order succeeds with the same view or every order fails |
| MergeOrder.OrderIrrelevantExactly | pkg/util/config.go:205-218 | for plain default values on any view, all orders agree (all fail, or all succeed with one view) exactly when some absent default is blocked, or any two absent defaults have incomparable paths or the same path and value |
| Merge.MergeOrderMatters | pkg/util/config.go:205-218 | an instance where two orders differ: the keys `a` and `a.b` |
| Mounts.PrepareBoth | internal/setup/prepare.go:83-89 | preparing two subsystems with one shared system performs exactly two mounts |
| Mounts.MountingMounts | internal/setup/prepare.go:83-89 | afterwards exactly the three mount points lead to the shared configuration, and the rest is still a tree |
| Mounts.MountsAgree | pkg/util/config.go:112-130 | reading below any mount point is reading below the shared configuration |
| Mounts.SetBelowMount | pkg/util/config.go:150-183 | a Set below one mount point is seen through all of them, paths that do not go below a mount point read as before, and the layout is kept |
| MountSets.SetBesideMounts | pkg/util/config.go:150-183 | a Set beside the mount points updates main's view as if nothing were shared, leaves the shared configuration alone, and keeps the layout |
| Mounts.MountedIsAcyclic | pkg/util/config.go:296-310 | the mounted graph has a bounded rank that nesting increases |
| Linearizable.StepKeeps | pkg/util/config.go:150-173 | every step of every goroutine keeps the linearization invariant |
| Linearizable.SetIsLinearizable | pkg/util/config.go:150-173 | after any prefix of any interleaving some order of the returned calls explains all results, respects real time, and reads like the tree: plain values always, everything once all calls have returned |
| Linearize.InsertChain | pkg/util/config.go:150-173 | a call can enter the log before a call that overwrites its subtree without changing any later view |
| LinearizeWrite.WriteCells | pkg/util/config.go:153-159 | storing a value, even in a detached subtree, keeps every entry in agreement with the log |
| LinearizeSteps.FailCells | pkg/util/config.go:167-172 | so does failing at a plain value |
| LinearizeCreate.CreateCells | pkg/util/config.go:162-165 | so does creating a configuration ahead of the call it is for |
| Linearizable.SetNeverBlocks | pkg/util/config.go:150-173 | a call that has not returned can always take a step |
| ConcurrentSet.SetStepsShrink | pkg/util/config.go:150-173 | every step brings its call closer to returning and moves no other call |
| Loading.LoadingNeverFails | pkg/util/config.go:284-294 | calls whose paths are never strictly above one another never see ErrFieldNotConfig, in any interleaving from an empty configuration |
| Loading.NeverFailsExactly | pkg/util/config.go:284-294 | no interleaving makes a call fail exactly when no path lies strictly above another |
| Loading.LoadingHolds | pkg/util/config.go:284-294 | at the end exactly the entry paths hold values, each one written to it, and exactly their proper prefixes are configurations |
| Loading.LoadingIsConfluent | pkg/util/config.go:284-294 | with distinct paths all interleavings end in the same view |
| Locks.GetReturnsExactly | pkg/util/config.go:112-130 | in every run on every closed graph, cyclic or not, what a Get comes to return is the lookup from its receiver in the graph of some earlier state of that run |
| Locks.GetIsExact | pkg/util/config.go:112-130 | that state is the one in which the last map is read |
| Locks.LRunKeeps | pkg/util/config.go:112-173 | in every run on every closed graph held locks form the walk along the path, and no node is read-locked while a writer holds it |
| Locks.ClimbingKept | pkg/util/config.go:150-173 | no step nests anything at or below the root in itself, if nothing was |
| Locks.NoDeadlock | pkg/util/config.go:112-173 | when nothing below the root is nested in itself some thread can always step, although waiting writers block new readers |
| Locks.StepsRunOut | pkg/util/config.go:112-173 | every schedule is finite |
| Locks.LockedStepsAreSteps | pkg/util/config.go:150-173 | with locks and readers forgotten, a step is a step of the set machine or nothing |
| Locks.LockedRunsAreRuns | pkg/util/config.go:150-173 | so a run with locks and readers contains a run of the set machine that ends in the same state, to which its linearizability applies |
| Deadlock.CycleDeadlocks | pkg/util/config.go:112-173 | on every graph with a cycle at or below the root, a writer and a reader have a run to a state where neither can step |
| Deadlock.DeadlockFreeExactly | pkg/util/config.go:112-173 | no run of any calls and readers gets stuck exactly when nothing at or below the root is nested in itself |
| EnvVars.GetVarStream | pkg/util/config.go:253-262 | the loop emits, for a plain prefix, exactly the rests of the entries starting with prefix and underscore, in order, and nothing for a prefix with an underscore |
| EnvVars.SelectionIsPrefixTest | pkg/util/config.go:253-262 | the two tests together are a plain prefix test |
| EnvVars.ParseEnvVar | pkg/util/config.go:316-337 | parsing succeeds exactly when there is a value and the named file, if any, opens; the key's parts rejoin to the name without `_FILE`, and the value is the text or the file's contents |
| EnvVars.EntryPathIff | pkg/util/config.go:289 | the joined key reaches the original components exactly when none contains a dot |
| EnvVars.VariableRoundTrip | pkg/util/config.go:316-337 | a variable's underscore-joined components and value come back out of parsing and are stored in lower case |
| EnvVars.FileVariableRoundTrip | pkg/util/config.go:322-331 | with `_FILE` appended to the name the value is the contents of the named file, and parsing fails when it cannot be opened |
| Pipeline.PipeStepKeeps | pkg/util/config.go:220-294 | every step on which nobody panics keeps the order of the variables still to come, the channel protocol and the count, whatever the paths and the variables |
| Pipeline.WaitGroupCounts | pkg/util/config.go:220-294 | in every run the wait group is never negative, and until somebody panics it equals the outstanding obligations |
| Pipeline.ScanningCounts | pkg/util/config.go:241-262 | while the environment is scanned the count includes one for each of its entries |
| Pipeline.PipeNeverBlocks | pkg/util/config.go:220-294 | until the finish channel closes or somebody panics, some goroutine can step |
| Pipeline.PipeEnds | pkg/util/config.go:220-294 | every schedule is finite |
| Pipeline.ClosesAfterLoading | pkg/util/config.go:220-228 | in every run without a panic the finish channel closes only after every selected variable has parsed and been set once, without error, and the configuration reads as after those calls in some serial order |
| Pipeline.ClosesAsLoaded | pkg/util/config.go:220-228 | when no path lies above another, it shows exactly the calls' values and the configurations above them |
| LoadedValues.VariableIsLoaded | pkg/util/config.go:220-294 | after a load without a panic the variable `PREFIX_A_B=v`, if no other is stored at, above or below its path, reads as the text v at `a.b` |
| LoadedValues.FileVariableIsLoaded | pkg/util/config.go:220-331 | and `PREFIX_A_B_FILE=f` reads as the contents of f |
| Panics.PanicFreeExactly | pkg/util/config.go:220-294 | no schedule panics exactly when every selected variable parses and no path lies strictly above another |
| Pipeline.PlainEnvironmentParses | pkg/util/config.go:246-282 | under a plain prefix every selected variable parses as long as the named files open |
| Users.LookupIsExact | pkg/storage/data/userdb.go:104-118 | with a coherent cache, lookups by name and email find a user exactly when the table has it, with the row's public fields |
| Users.LookupById | pkg/storage/data/userdb.go:120-126 | a lookup by id finds the row or a stale entry, and returns the fields once inserted under that id |
| Users.DeletionHidesIdExactly | pkg/storage/data/userdb.go:193-209 | after a deletion the row's id finds nobody exactly when the deletion was not answered from the cache while the id's key was cached |
| Users.DeletionHidesNames | pkg/storage/data/userdb.go:193-209 | after a deletion the row's name and email find nobody |
| Users.UpdateHidesOldKeysExactly | pkg/storage/data/userdb.go:159-172 | after an update of a row no row has a replaced name, and it finds nobody exactly when it was not cached; likewise the email |
| Users.UpdateStaysExactly | pkg/storage/data/userdb.go:159-172 | for every user record, also one without a row such as a copy read back from the cache, lookups by all names and emails stay exact exactly when the replaced keys were not cached and a record without a row brings no name or email unknown to the table |
| UserAnswers.CreateAnswers | pkg/storage/data/userdb.go:52-84 | Create answers with the new user exactly when name and email are free, the name has no blank and encryption succeeded, and with each error exactly in its case; only then one row with the given fields and hash is inserted |
| Users.CreateKeeps | pkg/storage/data/userdb.go:52-84 | Create keeps the cache coherent |
| UserAnswers.DeleteByNameAnswers | pkg/storage/data/userdb.go:202-209 | fails exactly when no row has the name; otherwise exactly the rows with the name are gone |
| UserAnswers.DeleteByIdAnswers | pkg/storage/data/userdb.go:193-200 | fails exactly when there is neither a row nor a cached entry for the id; exactly the row is gone |
| Users.DeleteKeeps | pkg/storage/data/userdb.go:193-209 | DeleteById and DeleteByName keep the cache coherent, whether they hit the cache or not |
| Users.RunsAreCoherent | pkg/storage/data/userdb.go:52-209 | after any run of Create, lookups and deletions every name or email key holds the fields of a live row and every id key those of the row ever inserted with that id |
| Users.RunsFromEmpty | pkg/storage/data/userdb.go:52-209 | in particular from an empty table and cache |
| UserAnswers.CoherentSays | pkg/storage/data/userdb.go:242-279 | coherence, key by key: `user_` with a name or an email holds the fields of a live row, `user_` with an id those once inserted under it |
| UserAnswers.ThreeKeys | pkg/storage/data/userdb.go:263-279 | caching a user writes exactly its three keys, clearing removes exactly them |
| UserAnswers.LookupCaches | pkg/storage/data/userdb.go:128-144 | a lookup that the cache cannot answer caches the row it finds |
| UserAnswers.UpdateWrites | pkg/storage/data/userdb.go:159-172 | an update changes name, email and time of the user's own row, not its password or creation time, nor any other row |
| UserAnswers.PasswordStepWrites | pkg/storage/data/userdb.go:174-191 | a password change stores the hash and the time in the user's own row and changes nothing else |
| UserAnswers.ListStepCaches | pkg/storage/data/userdb.go:86-102 | listing caches every user without its id and update time |
| UserSteps.TaskSettles | pkg/storage/data/userdb.go:263-279 | goroutines that run in the order of their start lead to the settled cache |
| UserSteps.StepsOfDelete | pkg/storage/data/userdb.go:193-209 | the single accesses of a deletion, the goroutines keeping up, are the deletion |
| UserSteps.StepsOfCreate | pkg/storage/data/userdb.go:52-84 | likewise for a creation |
| Users.DeletedUserStillFound | pkg/storage/data/userdb.go:193-209 | a run from the empty table after which a deleted user is still found by id |
| Users.RenamedUserStillFound | pkg/storage/data/userdb.go:159-172 | a run from the empty table after which a renamed user is still found by the old name |
| UserStore.UserDB.Create | pkg/storage/data/userdb.go:52-84 | however its cache writes are scheduled, in spawn order, the method has the effect of the function and keeps names and emails unique |
| UserStore.UserDB.DeleteBy | pkg/storage/data/userdb.go:193-209 | the same for the deletions |
| UserStore.UserDB.GetBy | pkg/storage/data/userdb.go:104-144 | the same for the lookups |
| UserStore.UserDB.Drain | pkg/storage/data/userdb.go:263-279 | running pending writes in order does not change what they lead to |
| UserSchedules.StaysDistinct | pkg/storage/data/userdb.go:52-118 | no step lets two rows share a name or an email, whatever the cache holds and its goroutines do |
| UserSchedules.RunsStayDistinct | pkg/storage/data/userdb.go:52-118 | the same over every run, changes of passwords included |
| UserSchedules.ProvenanceKept | pkg/storage/data/userdb.go:86-191 | every step keeps each cache entry and each pending write justified by a selected or accepted record |
| UserSchedules.RunsKeepProvenance | pkg/storage/data/userdb.go:86-191 | the same over every run, Update, UpdateUserPassword and GetAll included |
| Schema.Join | pkg/storage/data/helper.go:8-17 | the loop builds the list text |
| Schema.ConstraintString | pkg/storage/data/helper.go:143-153 | the loop builds the constraint text |
| Schema.FieldList | pkg/storage/data/helper.go:103-112 | the field loop separates all fields by commas |
| Schema.TableString | pkg/storage/data/helper.go:103-115 | the builder yields the table text |
| Schema.BuildCreateTableSQL | pkg/storage/data/helper.go:75-85 | the loop concatenates the table texts |
| SchemaParser.ParseTablesOf | pkg/storage/data/helper.go:75-175 | the parser recovers every clean list of tables from its text, up to normal form |
| SchemaParser.PrinterIsInjective | pkg/storage/data/helper.go:75-175 | two clean lists of tables have the same text exactly when they have the same normal form |
| SchemaAlike.TextDeterminesSchema | pkg/storage/data/helper.go:75-175 | that is, exactly when they agree but for the case of table and field names, the size of non-positive lengths, and name lists holding only the empty name |
| Decimal.OfNatSpells | pkg/storage/data/helper.go:131 | a number is printed with the digits of its base-ten notation, without leading zeros |
| SchemaText.FieldSpelled | pkg/storage/data/helper.go:125-134 | the text of a field: lower-case name, type, and a positive length in decimal |
| SchemaText.ForeignKeySpelled | pkg/storage/data/helper.go:162-175 | the text of a foreign key, in full |
| SchemaText.ConstraintSpelled | pkg/storage/data/helper.go:143-153 | the text of a constraint, with two foreign keys and without any |
| SchemaText.TableSpelled | pkg/storage/data/helper.go:103-115 | the text of a table with one field or two |
| Sql.DataBase.TransactionWrapper | pkg/storage/data/sql.go:448-490 | every transaction begun is ended by exactly one attempt, a commit exactly when the query succeeded and a rollback otherwise; a statement that does not start with SELECT is executed and its effect is the only change, one that does changes nothing; each error is returned exactly in its case |
| Sql.DataBase.Insert | pkg/storage/data/sql.go:369-399 | the same for one batch of rows; it succeeds exactly when the transaction begins, as many rows are copied as were given, and the commit is not refused |
| Sql.DataBase.LoadInitDir | pkg/storage/data/sql.go:219-240 | on success every file has committed one transaction and the database is the fold of their statements; on failure it is that of exactly the files before the first failing one, and no transaction stays open |
| Sql.StopsOnce | pkg/storage/data/sql.go:219-240 | only one prefix can be followed by a failing file |

## Left out

- Gin routing, HTTP handlers, sessions, TLS and the reverse proxy (`pkg/api`): library plumbing.
- `UserIMDB`, password hashing and authentication: simple members.
- The loop of `MergeInConfig` after its guard (`pkg/util/config.go:185-201`): unreachable, because the guard returns whenever the target is a configuration.
- `WhereMap.String` with two or more clauses and `DBInit.Raw`: `UserDB` uses one clause, and raw SQL is opaque text.
- The text of SQL statements other than table creation: selects and deletes are modelled as exact matches on their one condition.
- Reading the lines of a `_FILE` file: its contents are a lookup.
- `LoadConfig`'s ten-second timeout.
- Go memory-model effects of the unlocked map read at `pkg/util/config.go:167`: it is one atomic step.
- Lower-casing outside ASCII: `strings.ToLower` is modelled on ASCII letters.
- Text.SplitOffFirst: separators are single characters, as in its only call.
- Schema.Join: joins texts with a comma and a space, as the printer does; the source's `join` is generic in element and separator.
- Text.CaseVariants: does not model Unicode case folding, because lower-casing is modelled on ASCII letters.
- Linearizable.SetIsLinearizable: covers calls on one root with plain values; calls on other receivers and stored configurations are sequential only.
- MountSets.SetBesideMounts: covers Sets of plain values; storing a configuration after mounting would add or share further nodes.
- MergeOrder.OrderIrrelevantExactly: covers maps of plain values; with nested maps independence is proved under separation only (`Merge.MergeOrderIndependent`).
- Mounts.SetBelowMount: covers Sets of plain values strictly below a mount point. A Set at or above a mount point undoes the mount, and is covered by the tree laws before mounting only.
- UserStore.UserDB.GetBy: GetByName, GetByEmail and GetById are one method with the condition as its argument.
- Values of other Go types, and a nil *Config stored as a value.
