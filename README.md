# CatAsset task executor and bundle build pipeline, in Dafny

This project models two parts of the CatAsset asset framework for Unity.

**The runtime task executor (`TaskExcutor`).**
- Tasks are registered by name. A task submitted with `AddTask` waits in a pending list until the next `Update`.
- Each `Update` runs three phases in order:
  1. It drains the pending tasks. A name that is already live keeps its task and only gains the newcomer's `Completed` callbacks.
  2. It walks the live tasks under a per-tick execute budget, `MaxExcuteCount`.
     - `Free` and `Executing` tasks use up one unit of the budget each; `WaitOther` and `Done` tasks use none.
     - Once the budget is spent the walk stops.
  3. It removes the tasks that the walk found in `Done`.

**The editor's bundle build pipeline (`BuildPipeline`).**
- It composes the output directory `<outputPath>\<platform>\<version>_<manifestVersion>` and runs the engine's bundle compiler.
- It deletes the compiler's side files and copies the raw bundles into place.
- It assembles the `CatAssetManifest` in two ordered passes: compiled bundles first, then raw bundles.
- It writes the manifest. It can also promote the bundles of chosen groups, with a reduced manifest, to the read-only directory.

Module layout:

- `TaskModel` (task_model.dfy): the meaning of one tick, as pure functions over values (`Drain`, `Visited`, `StepAll`, `DoneNames`, `CallsOf`, `Tick`), with the lemmas that say what a tick does.
- `TaskExecution` (task_executor.dfy): the class `TaskExcutor`.
  - Its fields are those of the source. The dictionary is a `map` plus `order`, the sequence in which enumeration meets its keys.
  - Its methods run the source's loops, and each method is proved against `TaskModel`.
  - The tasks' `Execute` and `Update` hooks are a `Hooks` parameter: each hook gives the new state of the one task it runs on.
  - `Update` returns the sequence of hook calls it made.
- `BuildPipeline` (build_pipeline.dfy): the pipeline's datatypes, the class `CatAssetManifest` whose bundle list is updated in place, and the pipeline's steps as methods with loops, specified by predicates and filters.
  - The engine, the file system, the hash function and the dependency lookup are the capabilities of an `Editor` value.
- `Paths` (paths.dfy): the .NET string and path functions the pipeline relies on, as the Windows editor runs them: `Path.Combine`, `LastIndexOf`, `Path.GetExtension`, `Int32.ToString`, `String.Split`.
- `Sequences` (sequences.dfy): the order-preserving filter that the pipeline's `foreach … if … Add` loops compute.
- `Wrappers` (wrappers.dfy): `Option` and `Result`.

## Behaviour worth knowing

The code behaves as follows in a few cases a reader might expect otherwise; the model does what the code does:

- **WaitOther tasks and the budget.** `WaitOther` tasks use no budget, but they are not always updated: the walk leaves the `foreach` at once when the budget is spent (TaskExcutor.cs:109-112). So a `WaitOther` or `Done` task that comes after that point is skipped for the tick. `TaskModel.TickLeavesRestUntouched` states this.
- **Missing compiler hash.** There is no check for a compiled bundle whose hash the compiler did not report: it stores whatever `GetAssetBundleHash` returns (BuildPipeline.cs:158). The model takes the hash as reported.
- **Unknown task names.** There is no common error for an unknown name: `AppendTaskCompleted` logs and returns with nothing changed (TaskExcutor.cs:53-57), and `GetTaskState` raises the dictionary's KeyNotFoundException (TaskExcutor.cs:45). The model has the first change nothing and the second yield `KeyNotFound`.
- **Non-positive budget.** When `MaxExcuteCount` is 0 or negative, the break fires before the first task, so nothing is stepped or removed that tick. `TaskModel.Budget` clamps the bound to 0 accordingly.

## Model

| member | source | states |
|---|---|---|
| TaskExecution.TaskExcutor.constructor | Assets/CatAsset/Runtime/Task/TaskExcutor.cs:15-30 | A new executor has no live and no pending tasks and a budget of 10; the registry invariant holds |
| TaskExecution.TaskExcutor.HasTask | Assets/CatAsset/Runtime/Task/TaskExcutor.cs:35-38 | A name is live exactly when it is in the current enumeration order |
| TaskExecution.TaskExcutor.GetTaskState | Assets/CatAsset/Runtime/Task/TaskExcutor.cs:43-46 | A name that is not live yields KeyNotFound, exactly; otherwise the result is the state of the live task with that name |
| TaskExecution.TaskExcutor.AppendTaskCompleted | Assets/CatAsset/Runtime/Task/TaskExcutor.cs:51-60 | A name that is not live changes nothing; otherwise only that task's callbacks grow, by concatenation |
| TaskExecution.TaskExcutor.AddTask | Assets/CatAsset/Runtime/Task/TaskExcutor.cs:65-68 | Only the pending list grows, by the task; the live tasks, their order, and HasTask for every name are unchanged |
| TaskExecution.TaskExcutor.InternalAddTask | Assets/CatAsset/Runtime/Task/TaskExcutor.cs:73-83 | The registry becomes AddOne of the old one (a new name is inserted at the end of the enumeration, a live name gains the callbacks); the invariant is kept |
| TaskExecution.TaskExcutor.Update | Assets/CatAsset/Runtime/Task/TaskExcutor.cs:88-153 | The new registry and the hook calls are exactly those of Tick on the old registry, pending list and budget; the pending lists end empty and the invariant is kept |
| TaskExecution.TaskExcutor.AddNeedAddTasks | Assets/CatAsset/Runtime/Task/TaskExcutor.cs:90-100 | The registry becomes Drain of the old registry over the pending list, and the pending list is cleared |
| TaskExecution.TaskExcutor.ExecuteLiveTasks | Assets/CatAsset/Runtime/Task/TaskExcutor.cs:102-140 | Exactly the names of Visited (the enumeration up to where the budget ran out) are stepped once each, their Done names are queued and their hook calls returned; the order is unchanged |
| TaskExecution.TaskExcutor.Visit | Assets/CatAsset/Runtime/Task/TaskExcutor.cs:114-137 | One task goes through Step for its state; a Done task's name is queued; the task uses up budget exactly when it was Free or Executing |
| TaskExecution.TaskExcutor.RemoveNeedRemoveTasks | Assets/CatAsset/Runtime/Task/TaskExcutor.cs:143-152 | Exactly the queued names leave the dictionary and the enumeration, which keeps its order; the queue ends empty |
| TaskModel.Step | Assets/CatAsset/Runtime/Task/TaskExcutor.cs:116-137 | A visit changes only a task's state, never its name or callbacks, and leaves a Done task as it was |
| TaskModel.DrainKeys | Assets/CatAsset/Runtime/Task/TaskExcutor.cs:90-100 | After the drain the live names are exactly the old live names plus every pending name |
| TaskModel.AddOne | Assets/CatAsset/Runtime/Task/TaskExcutor.cs:73-83 | Definition of InternalAddTask on values; its meaning is stated by AddOnePreservesWellFormed, DrainMerges and DuplicateAddsMerge |
| TaskModel.Drain | Assets/CatAsset/Runtime/Task/TaskExcutor.cs:90-100 | Definition of the drain loop on values; its meaning is stated by DrainKeys, DrainOrder, DrainMerges and DrainPreservesWellFormed |
| TaskModel.Tick | Assets/CatAsset/Runtime/Task/TaskExcutor.cs:88-153 | Definition of one Update on values; its meaning is stated by TickBudget, TickOutcome, TickLeavesRestUntouched, TickCalls and TickPreservesWellFormed |
| TaskModel.DrainOrder | Assets/CatAsset/Runtime/Task/TaskExcutor.cs:73-83 | In the model's enumeration order (see Left out), the drain only appends: the new names, each once, in order of first submission |
| TaskModel.DrainMerges | Assets/CatAsset/Runtime/Task/TaskExcutor.cs:73-83 | A live task is kept and gains every pending callback for its name; a new name gets its first pending task carrying all callbacks for that name; no other pending object is inserted |
| TaskModel.DuplicateAddsMerge | Assets/CatAsset/Runtime/Task/TaskExcutor.cs:75-82 | Two submissions under one new name yield one live task: the first one, holding both callback lists, enumerated once |
| TaskModel.AddOnePreservesWellFormed | Assets/CatAsset/Runtime/Task/TaskExcutor.cs:73-83 | Adding one task keeps one task per name, each live name enumerated once and filed under its own name |
| TaskModel.DrainPreservesWellFormed | Assets/CatAsset/Runtime/Task/TaskExcutor.cs:90-100 | The whole drain keeps that invariant |
| TaskModel.StopFrom | Assets/CatAsset/Runtime/Task/TaskExcutor.cs:107-112 | The walk's stopping point: the count is under budget at every earlier position, and the walk stops at the end or where the count reaches the budget |
| TaskModel.StepAllFrame | Assets/CatAsset/Runtime/Task/TaskExcutor.cs:107-139 | The walk keeps every name live and steps exactly the visited tasks, each once; all others are unchanged |
| TaskModel.DoneNamesMembership | Assets/CatAsset/Runtime/Task/TaskExcutor.cs:133-135 | A name is queued for removal exactly when it was visited and found in Done |
| TaskModel.FilterOutMembership | Assets/CatAsset/Runtime/Task/TaskExcutor.cs:145-149 | Removal leaves exactly the names not removed, each still once |
| TaskModel.FilterOutNothing | Assets/CatAsset/Runtime/Task/TaskExcutor.cs:143-152 | Removing names that are not enumerated leaves the enumeration as it is |
| TaskModel.FilterOutTwice | Assets/CatAsset/Runtime/Task/TaskExcutor.cs:145-149 | Removing names one after the other is removing them all at once |
| TaskModel.CallsNamedConcat | Assets/CatAsset/Runtime/Task/TaskExcutor.cs:107-139 | Proof helper for CallsOfNamed: selecting one task's calls distributes over concatenation of call sequences |
| TaskModel.HookCallsNamed | Assets/CatAsset/Runtime/Task/TaskExcutor.cs:116-137 | The calls of one visit all belong to the visited task |
| TaskModel.CallsOfNamed | Assets/CatAsset/Runtime/Task/TaskExcutor.cs:107-139 | Over a walk of distinct names, a task receives exactly the hook calls its state calls for if it was visited, none otherwise |
| TaskModel.TickBudget | Assets/CatAsset/Runtime/Task/TaskExcutor.cs:105-137 | The Free and Executing tasks visited in a tick never exceed the budget, and the walk ends before the last task only once the budget is spent |
| TaskModel.TickPreservesWellFormed | Assets/CatAsset/Runtime/Task/TaskExcutor.cs:88-153 | A tick keeps one task per name, each live name enumerated once |
| TaskModel.TickOutcome | Assets/CatAsset/Runtime/Task/TaskExcutor.cs:88-153 | After a tick exactly the drained tasks survive except the visited ones found in Done; a survivor was stepped once if visited and is unchanged otherwise; the enumeration keeps its order |
| TaskModel.TickLeavesRestUntouched | Assets/CatAsset/Runtime/Task/TaskExcutor.cs:109-112 | Every task after the point where the budget ran out, WaitOther and Done ones included, is untouched and stays live |
| TaskModel.TickCalls | Assets/CatAsset/Runtime/Task/TaskExcutor.cs:116-137 | Per task and tick: Free gets Execute then Update, Executing and WaitOther get Update, Done gets nothing, and an unvisited task gets nothing |
| Paths.Combine | Assets/CatAsset/Editor/BuildPipeline.cs:69 | Definition of two-part Path.Combine; its meaning is stated by CombineKeepsParts |
| Paths.Combine3 | Assets/CatAsset/Editor/BuildPipeline.cs:69 | Definition of three-part Path.Combine as two two-part ones; used by FullOutputPathLayout |
| Paths.CombineKeepsParts | Assets/CatAsset/Editor/BuildPipeline.cs:69 | Path.Combine drops an empty part and returns a rooted second part as it is; otherwise the result starts with the first part, ends with the second, and between them is exactly one backslash unless the first part already ends with a separator or ':' |
| Paths.LastIndexOf | Assets/CatAsset/Editor/BuildPipeline.cs:96 | The result is -1 or the index of the character, and no occurrence lies after it |
| Paths.AfterLastBackslash | Assets/CatAsset/Editor/BuildPipeline.cs:96 | The substring after the last backslash holds no backslash, ends the path, and is preceded by a backslash unless it is the whole path |
| Paths.ExtensionStart | Assets/CatAsset/Editor/BuildPipeline.cs:99 | GetExtension's backward scan yields the index of a '.' after which no '.', separator or ':' follows; or -1, and then every '.' is followed later by a separator or ':' |
| Paths.Extension | Assets/CatAsset/Editor/BuildPipeline.cs:99 | The extension is empty exactly when the name ends with '.' or every '.' is followed by a separator or ':'; otherwise it is a suffix of the name that starts with '.' and holds at least one more character, none of them a '.', a separator or ':' |
| Paths.ExtensionStartSkips | Assets/CatAsset/Editor/BuildPipeline.cs:99 | Appending a plain segment without '.' does not move the extension's start |
| Paths.ManifestExtensionIsSuffix | Assets/CatAsset/Editor/BuildPipeline.cs:99 | A file name has the extension ".manifest" exactly when it ends with ".manifest" |
| Paths.NatToDecimal | Assets/CatAsset/Editor/BuildPipeline.cs:68 | A natural number's text is one or more decimal digits |
| Paths.IntToDecimal | Assets/CatAsset/Editor/BuildPipeline.cs:68 | An integer's text is nonempty and holds no separator |
| Paths.NatToDecimalRoundTrip | Assets/CatAsset/Editor/BuildPipeline.cs:68 | Reading back the digits gives the number |
| Paths.IntToDecimalRoundTrip | Assets/CatAsset/Editor/BuildPipeline.cs:68 | Reading back the text of any integer, negative ones included, gives the integer |
| Paths.Split | Assets/CatAsset/Editor/BuildPipeline.cs:227 | Split yields at least one piece and no piece contains the separator |
| Paths.SplitJoinRoundTrip | Assets/CatAsset/Editor/BuildPipeline.cs:227 | Joining the pieces with the separator gives back the original text |
| Sequences.Filter | Assets/CatAsset/Editor/BuildPipeline.cs:232-260 | A filter never lengthens its input |
| Sequences.FilterStep | Assets/CatAsset/Editor/BuildPipeline.cs:235-260 | One more element considered adds it to the filter's result exactly when it is accepted |
| Sequences.FilterMembership | Assets/CatAsset/Editor/BuildPipeline.cs:235-260 | An element is in the filter's result exactly when it is in the input and accepted |
| Sequences.FilterIsSubsequence | Assets/CatAsset/Editor/BuildPipeline.cs:235-260 | The filter's result is an order-preserving subsequence of its input |
| Sequences.FilterKeepsAll | Assets/CatAsset/Editor/BuildPipeline.cs:235-260 | A filter that accepts every element returns its input |
| Sequences.SubsequenceOfLonger | Assets/CatAsset/Editor/BuildPipeline.cs:235-260 | Proof helper for FilterIsSubsequence: a subsequence stays one when the full sequence grows at the end |
| Sequences.SubsequenceShorter | Assets/CatAsset/Editor/BuildPipeline.cs:235-260 | Proof helper for FilterIsSubsequence: dropping the last element of a subsequence leaves a subsequence |
| BuildPipeline.CatAssetManifest.constructor | Assets/CatAsset/Editor/BuildPipeline.cs:133-137 | A new manifest carries the given game and manifest versions and no bundles |
| BuildPipeline.GetFullOutputPath | Assets/CatAsset/Editor/BuildPipeline.cs:66-71 | The output path ends with "<version>_<manifestVersion>"; FullOutputPathLayout gives the whole layout |
| BuildPipeline.FullOutputPathLayout | Assets/CatAsset/Editor/BuildPipeline.cs:66-71 | The output path is the platform directory, one backslash and "<version>_<manifestVersion>"; that name is what follows the last backslash, and the manifest version reads back from it |
| BuildPipeline.PlainEndNotSeparator | Assets/CatAsset/Editor/BuildPipeline.cs:69 | Combining onto a plain platform name ends in a character after which Path.Combine inserts a backslash |
| BuildPipeline.VersionDirectoryPlain | Assets/CatAsset/Editor/BuildPipeline.cs:68 | The version directory's name is plain, has no backslash, and its tail after "<version>_" is the version number's text |
| BuildPipeline.AfterBackslashOfJoin | Assets/CatAsset/Editor/BuildPipeline.cs:96 | The name after the last backslash of "front\name" is name, when name has no backslash |
| BuildPipeline.BuildAssetBundles | Assets/CatAsset/Editor/BuildPipeline.cs:76-88 | A null build list yields a null compiler manifest |
| BuildPipeline.NullBuildListSkipsCompiler | Assets/CatAsset/Editor/BuildPipeline.cs:79-82 | With a null build list the result does not depend on the compiler at all |
| BuildPipeline.IsDeleted | Assets/CatAsset/Editor/BuildPipeline.cs:96-99 | Definition of the deletion test; its meaning is stated by IsDeletedIff and DeleteManifestFilesPartition |
| BuildPipeline.IsDeletedIff | Assets/CatAsset/Editor/BuildPipeline.cs:96-103 | A file is deleted exactly when its name is the output directory's own name or ends with ".manifest" |
| BuildPipeline.DeletesAggregateBundle | Assets/CatAsset/Editor/BuildPipeline.cs:96-99 | In a build directory, the file named "<version>_<manifestVersion>" (the compiler's aggregate bundle) is deleted |
| BuildPipeline.DeleteManifestFiles | Assets/CatAsset/Editor/BuildPipeline.cs:93-105 | The files deleted and the files kept are the two order-preserving filters of the listing by the deletion test, and together account for every file |
| BuildPipeline.DeleteManifestFilesPartition | Assets/CatAsset/Editor/BuildPipeline.cs:96-103 | A listed file is deleted if and only if the test selects it and kept if and only if it does not; both lists keep the listing order |
| BuildPipeline.RawFailureIff | Assets/CatAsset/Editor/BuildPipeline.cs:112-114 | The raw pass throws exactly when some raw bundle declares no asset, and then names such a bundle |
| BuildPipeline.BuildRawBundles | Assets/CatAsset/Editor/BuildPipeline.cs:110-124 | It fails exactly as RawFailure says; otherwise the i-th copy takes the i-th raw bundle's first asset to "<outputPath>\<relativePath>" |
| BuildPipeline.RawFailurePrefix | Assets/CatAsset/Editor/BuildPipeline.cs:112-114 | The first failing raw bundle decides the outcome: later bundles cannot change it |
| BuildPipeline.NormalFailureIff | Assets/CatAsset/Editor/BuildPipeline.cs:140-158 | The compiled-bundle pass succeeds exactly when every compiled bundle has a first asset and, if there is any, the compiler manifest is not null |
| BuildPipeline.ManifestFailureIff | Assets/CatAsset/Editor/BuildPipeline.cs:129-198 | CreateManifest succeeds exactly when every declared bundle has a first asset and the compiler manifest is not null whenever compiled bundles exist |
| BuildPipeline.NormalFailurePrefix | Assets/CatAsset/Editor/BuildPipeline.cs:140-158 | The first failing compiled bundle decides the outcome |
| BuildPipeline.NormalBundleEntry | Assets/CatAsset/Editor/BuildPipeline.cs:142-170 | A compiled bundle's entry: declared fields copied, not raw, scene iff the first asset ends with ".unity", the file length at the bundle's path, the compiler's hash, and one asset per declared asset in order with its direct dependencies |
| BuildPipeline.RawBundleEntry | Assets/CatAsset/Editor/BuildPipeline.cs:176-197 | A raw bundle's entry: declared fields copied, raw and not a scene, the byte count and hash of the same bytes read at the bundle's path, exactly one asset (the first) with no dependencies |
| BuildPipeline.AddNormalBundles | Assets/CatAsset/Editor/BuildPipeline.cs:140-171 | The first pass fails exactly as NormalFailure says; otherwise it appends one entry per compiled bundle in declaration order and leaves the earlier bundles and the versions alone |
| BuildPipeline.AddRawBundles | Assets/CatAsset/Editor/BuildPipeline.cs:174-198 | The second pass fails exactly as RawFailure says; otherwise it appends one entry per raw bundle in declaration order and leaves the earlier bundles and the versions alone |
| BuildPipeline.CreateManifest | Assets/CatAsset/Editor/BuildPipeline.cs:129-203 | It throws exactly when ManifestFailure says, with that error; otherwise a new manifest with the given versions holding the compiled bundles' entries then the raw bundles' entries, |normal| + |raw| in all |
| BuildPipeline.CopyToReadOnlyPath | Assets/CatAsset/Editor/BuildPipeline.cs:221-269 | The manifest's bundle list becomes the promoted subsequence of the old one, the versions stay, and the read-only manifest written is that manifest |
| BuildPipeline.IsPromoted | Assets/CatAsset/Editor/BuildPipeline.cs:225-243 | Definition of the group test; its meaning is stated by NoCopyGroupPromotesAll and CopyGroupPieces |
| BuildPipeline.PromotedBundles | Assets/CatAsset/Editor/BuildPipeline.cs:232-260 | Definition of the promoted list as a filter; its meaning is stated by PromotedBundlesSelect and CopyToReadOnlyPath |
| BuildPipeline.PromotedBundlesSelect | Assets/CatAsset/Editor/BuildPipeline.cs:224-263 | A bundle is promoted exactly when it is in the manifest and its group is chosen; the promoted list keeps the manifest's order |
| BuildPipeline.NoCopyGroupPromotesAll | Assets/CatAsset/Editor/BuildPipeline.cs:224-228 | A null or empty copy group promotes every bundle |
| BuildPipeline.CopyGroupPieces | Assets/CatAsset/Editor/BuildPipeline.cs:225-239 | With a nonempty copy group, a group is chosen exactly when it equals one of the ';'-separated pieces, and the pieces rejoin to the copy group |
| BuildPipeline.RawEntriesMeasureCopies | Assets/CatAsset/Editor/BuildPipeline.cs:121-189 | Each raw entry's length is the byte count of the very file BuildRawBundles copied into place |
| BuildPipeline.ShouldPromote | Assets/CatAsset/Editor/BuildPipeline.cs:45 | Definition of the promotion guard; PublishManifest and ExecuteBundleBuildPipeline state what it decides |
| BuildPipeline.PublishManifest | Assets/CatAsset/Editor/BuildPipeline.cs:43-49 | The full manifest is always written to the build directory; a second, promoted one goes to the read-only directory exactly when copying is on and one platform is built; the manifest object then holds the promoted bundles, and otherwise is unchanged |
| BuildPipeline.ExecuteBundleBuildPipeline | Assets/CatAsset/Editor/BuildPipeline.cs:16-50 | A run fails exactly when the raw pass or the manifest throws, with the first error met; otherwise it reports the composed path, the files left after cleanup, one copy per raw bundle (its first asset to "<path>\<relativePath>"), the full manifest describing the build, and the promoted manifest exactly when the guard holds |

## Left out

- File I/O is not performed. Directory creation (`Util.CreateEmptyDirectory`, `Directory.CreateDirectory`), `File.Copy`, `FileInfo.CopyTo` and `FileInfo.Delete` are recorded as results (copies, remaining files) or not at all. File lengths, file contents and the directory listing are functions of the `Editor` value.
- The engine's compiler, `GetAssetBundleHash`, `Hash128.Compute` and `Util.GetDependencies` are uninterpreted functions of the `Editor` value. `Application.version` and `Application.streamingAssetsPath` are its fields.
- JSON serialisation, `AssetDatabase.Refresh` and `Debug.LogError` are left out. A written manifest is the `ManifestFile` value of its contents. `Util.ManifestFileName` is not part of this model.
- `ExecuteRawBundleBuildPipeline` is left out: it only computes a path and appends "_rawbundles".
- `BaseTask` is not part of this model. Its `Execute` and `Update` are modelled as functions that give the task's next state and touch nothing else. A hook that re-enters the executor, or that changes other tasks, is not modelled.
- `Action<object>` delegates are modelled as sequences of callback ids, so `+=` is concatenation. Removing delegates and invoking them are not modelled.
- Tasks are values, so aliasing between a pending task object and a live one is not modelled.
- Exceptions other than the pipeline's own are left out: missing files, a pre-existing copy destination, permissions, `Path.Combine`'s invalid-character checks. In particular, when the build list was null no bundle was compiled, so the source usually stops at the `FileNotFoundException` from `fi.Length` (BuildPipeline.cs:154-156), before the null manifest is dereferenced; the model's file lengths are total, so it reports `NullUnityManifest` there instead, which the source reaches only when a file already exists at the bundle's path.
- A failing run is reported as its error only. The partial effects before the throw are not returned: files already deleted or copied, and the entry already added to the manifest.
- Paths follow Windows, the platform whose separator `DeleteManifestFiles` searches for. `String.EndsWith(".unity")` (BuildPipeline.cs:152) and `String.LastIndexOf("\\")` (BuildPipeline.cs:96) are string overloads that compare culture-sensitively in .NET Framework; the model compares ordinally, character by character. Likewise `Int32.ToString()` (the manifest version in BuildPipeline.cs:68) writes the current culture's negative sign; `IntToDecimal` always writes '-'.
- TaskModel.DrainOrder: states the enumeration order the model keeps, where a new name goes after all live names. .NET's `Dictionary` enumerates by slot, and an `Add` after a `Remove` reuses the freed slot. So a name drained in the tick after a Done task was removed is enumerated at that task's old position, ahead of older tasks, and this can change which tasks the budget reaches. Slot reuse is not modelled. The tick lemmas refer to the walk order only through the drained order `Drain(r, pending).order`; only DrainOrder, DuplicateAddsMerge (whose order ends with the new name) and the insertion position in `AddOne` commit to the model's choice. Removal keeps the remaining names in order, as slot enumeration does.
- BuildPipeline.WriteManifestFile has no contract of its own: it stands for the JSON write, and the written contents are stated by CopyToReadOnlyPath, PublishManifest and ExecuteBundleBuildPipeline.
- `ToLower` on directory names only feeds directory creation, which is left out.
- `Util.GetReadOnlyPath` is not part of this model. The files `CopyToReadOnlyPath` copies are not recorded; its manifest update and written manifest are.
- BuildPipeline.BuildAssetBundles: "the compiler is not invoked" is stated as the result's independence from the compiler (`NullBuildListSkipsCompiler`), since a call that has no effect cannot be observed in a pure model.
- Integer widths: `FileInfo.Length` (64-bit) and `MaxExcuteCount` (32-bit) are unbounded integers; no overflow is modelled, and none is reachable in the loops modelled.
