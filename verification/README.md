# Verified models of seven components

These Dafny modules model the algorithms in this repository that keep state, and prove what they
are for: BitBake's recipe cache, its copy-on-write dictionary, its task search and FIFO reader,
the inotify notifier, the SDK relocator, the cloud's command queue and telemetry table, and the
cleanup of the shared-state cache. `dafny verify dfyconfig.toml` checks all of them.

Code that changes things step by step is a class or a method here, with the fields and loops of
the source, proved against functions on values; the laws are lemmas about these functions.

| module | component |
|---|---|
| `MultiProcessCache` | saving and merging a cache from many processes, as interleaved steps on files and locks |
| `SiggenCodec` | the stream codec that sends each value once and numbers afterwards |
| `Text`, `VirtualNames` | names of recipe variants |
| `RecipeCache` | the memoised validity check and what later lookups rely on |
| `CacheFiles` | one file per record class, and loading them again |
| `CowDict` | dictionaries that inherit from each other and copy mutable values when read |
| `TasksBetween`, `Fifo` | the tasks between two tasks; NUL-framed messages |
| `Wrappers`, `Sequences`, `Bytes` | options, facts about sequences, integers in bytes |
| `NotifierFrames`, `AutoAdd`, `MovedWatches` | inotify records and coalescing, watching new subtrees, following moves |
| `Relocate`, `RelocateRun`, `RelocateProofs`, `RelocateSuccess`, `LoaderTables` | patching an ELF image (System V gABI, chapters 4 and 5) |
| `ElfHeaders`, `RelocateMeaning` | headers packed and read back; what substitution, names and single writes mean |
| `CommandQueue`, `CommandRuns`, `Telemetry` | SQL statements as steps that may fail |
| `Sstate` | the passes that collect files to delete |

Where a law does not hold on all inputs, the exact condition is proved, and an input shows that it fails:

- A mutable value set on a key whose plain value or deletion is visible stays hidden, and an empty
  tuple reads as a deletion (`CowDict.SetDataEffect`, `CowDict.SetPlainEffect`; input:
  `CowDict.PlainHidesMutable`). Reverting a plain value may uncover a mutable one
  (`CowDict.RevertEffect`; `CowDict.RevertUncovers`).
- A mutable value under the key `"_"` or `""` can be read and is never listed (`CowDict.ListedUnless`;
  `CowDict.UnderscoreNotListed`).
- A recipe removed after a passed check leaves its other variants marked clean
  (`RecipeCache.VariantsAllOrNone`; `RecipeCache.RemovedVariantStaysClean`).
- A reset of the reading side in the middle of a stream loses dictionaries (`SiggenCodec.RunRoundTrip`;
  `SiggenCodec.ReaderResetLoses`).
- A record list that is empty or out of class order does not survive saving
  (`CacheFiles.SaveLoadRoundTrip`; `CacheFiles.EmptyListLost`).
- With coalescing, an event without a name and one for a file named by two quotes are taken for the
  same, although the documentation promises unique field combinations (`NotifierFrames.SameIff`;
  `NotifierFrames.QuotedNameLost`).
- A watch that moves below its own former path is renamed twice (`MovedWatches.MovedWatchItself`). The
  kernel refuses such moves, but a stale path makes one up (`MovedWatches.StalePathMisplaced`).
- Loader directories that become empty, or contain a NUL, after substitution cut the table short
  (`LoaderTables.TablesAgree`; `LoaderTables.EmptyPrefixCutsTable`).
- A prefix so long that the directory table outgrows its section overwrites what lies behind it, in a run
  that succeeds (`RelocateProofs.TablesFit` is what `RelocateProofs.RelocationEffect` asks for, and
  `LoaderTables.TableOverruns` says what happens otherwise; `LoaderTables.LongPrefixOverwrites`).
- Two calls of one gateway that overlap may both return a command, and a late mark overwrites a reported
  status (`CommandRuns.AtMostOnceIff`, `CommandRuns.StatusIsLastWrite`; `CommandRuns.OverlappingCalls`).
- A local id used again with other contents is acknowledged and dropped (`Telemetry.OwnContentsStored`;
  `Telemetry.ReusedIdDropped`).
- Cleaning by stamps together with orphans may leave a group without an archive, which a second run
  then removes (`Sstate.StampsAndOrphans`, `Sstate.CleanupTwice`; `Sstate.StampsLeaveAnOrphan`).

## Model

| member | source | states |
|---|---|---|
| `MultiProcessCache.MergeTablesMeaning` | yocto/poky/bitbake/lib/bb/cache.py:897-901 | Merging gives the smallest table that keeps every old entry and has the keys of both; an entry that is there already wins. |
| `MultiProcessCache.MergeEntries` | yocto/poky/bitbake/lib/bb/cache.py:899-901 | The loop over the keys of one table, in any order, gives the merged table. |
| `MultiProcessCache.Merger.MergeData` | yocto/poky/bitbake/lib/bb/cache.py:897-901 | The loop over the tables merges all of them in place. |
| `MultiProcessCache.Merger.TakeFile` | yocto/poky/bitbake/lib/bb/cache.py:913-929 | One extras file is merged exactly if it can be read and has the version of the cache, and removed in every case. |
| `MultiProcessCache.Merger.SaveMerge` | yocto/poky/bitbake/lib/bb/cache.py:903-936 | For any listing order: all files are gone, and no old entry changed. Every other entry is that of the first file of this version in the listing that has the key, every such key is there, and the table is stored exactly if such a file was there. |
| `MultiProcessCache.InvStep` | yocto/poky/bitbake/lib/bb/cache.py:869-936 | Every step of any saver or of the merger (taking and releasing the shared, exclusive and per-index locks, testing, writing, merging, removing, storing) keeps the invariant of the protocol. |
| `MultiProcessCache.ExecutionInv` | yocto/poky/bitbake/lib/bb/cache.py:869-936 | The invariant holds in every state of every execution, with any number of savers. |
| `MultiProcessCache.NoOverwrite` | yocto/poky/bitbake/lib/bb/cache.py:881-892 | Over every interleaving a saver writes to an index that has no file, and no other saver is at that index. |
| `MultiProcessCache.FileStays` | yocto/poky/bitbake/lib/bb/cache.py:890-892 | A file, once written, keeps its contents until the merger takes it. |
| `MultiProcessCache.StoredGrows` | yocto/poky/bitbake/lib/bb/cache.py:927-934 | Over every execution no key of the stored table is lost and no value of it changes. |
| `MultiProcessCache.MergeStoresCompletedSaves` | yocto/poky/bitbake/lib/bb/cache.py:903-936 | A finished merge has stored every key of every save that was completed before it. |
| `MultiProcessCache.StoredIsKnown` | yocto/poky/bitbake/lib/bb/cache.py:897-934 | The stored table holds only values that were stored, left in a file, or saved by somebody. |
| `MultiProcessCache.SearchBounded` | yocto/poky/bitbake/lib/bb/cache.py:881-888 | In every interleaving the search for an index stays closer to its process id than there are files at the beginning and calls that ever begin. |
| `MultiProcessCache.SearchEnds` | yocto/poky/bitbake/lib/bb/cache.py:881-888 | Over a whole execution a call makes at most twice that many attempts on locks and looks for files; so each search ends when finitely many calls take part. |
| `MultiProcessCache.SaveThenMerge` | yocto/poky/bitbake/lib/bb/cache.py:869-936 | The protocol gets somewhere: from an empty directory, what any one process saves can be merged and stored by a run that ends with nobody under way. |
| `SiggenCodec.SiggenRecipeInfo.Reset` | yocto/poky/bitbake/lib/bb/cache.py:281-287 | The numbers of both directions are forgotten, the interned values stay. |
| `SiggenCodec.SiggenRecipeInfo.SaveDeps` | yocto/poky/bitbake/lib/bb/cache.py:289-304 | The encoding loop produces the specified entries and writer tables. |
| `SiggenCodec.SiggenRecipeInfo.RestoreDeps` | yocto/poky/bitbake/lib/bb/cache.py:306-326 | The decoding loop gives the specified dictionary and reader tables, or stops at an unknown number. |
| `SiggenCodec.DictRoundTrip` | yocto/poky/bitbake/lib/bb/cache.py:290-326 | One dictionary comes back exactly if the reader knows the number of every back-reference in it, whatever else its table holds. |
| `SiggenCodec.RunRoundTrip` | yocto/poky/bitbake/lib/bb/cache.py:281-326 | A whole run of sends and resets gives back all dictionaries, in order, exactly if nothing refers back across a reader reset. |
| `SiggenCodec.InterleavedRoundTrip` | yocto/poky/bitbake/lib/bb/cache.py:275-338 | From fresh writers, any interleaving of their streams and any writer resets: a reader with arbitrary stale tables restores every dictionary. |
| `SiggenCodec.ReaderResetLoses` | yocto/poky/bitbake/lib/bb/cache.py:281-287 | A concrete run in which a reset of the reader in the middle of a stream loses a dictionary. |
| `SiggenCodec.SentOnce` | yocto/poky/bitbake/lib/bb/cache.py:289-304 | Until a process resets its writer, each value it sends is sent in full exactly once in its whole stream of dictionaries, whatever other processes send in between, and never if it had a number before. |
| `SiggenCodec.NumbersWithoutGaps` | yocto/poky/bitbake/lib/bb/cache.py:301-303 | Numbers are given out one after the other, beginning with 1. |
| `SiggenCodec.ValuesInterned` | yocto/poky/bitbake/lib/bb/cache.py:318-324 | Decoding interns exactly the values sent in full, each as itself, and keeps those interned before. |
| `SiggenCodec.PutAgain` | yocto/poky/bitbake/lib/bb/cache.py:314-325 | A key that comes twice keeps its place and gets the later value. |
| `SiggenCodec.RunIsTransmission` | yocto/poky/bitbake/lib/bb/cache.py:281-338 | A run is what the reader makes of what the writers transmit. |
| `SiggenCodec.StreamTransmitted` | yocto/poky/bitbake/lib/bb/cache.py:328-333 | What reaches the reader from a process is its stream, however the streams interleave. |
| `SiggenCodec.NoResetNoLoss` | yocto/poky/bitbake/lib/bb/cache.py:281-326 | Without reader resets no back-reference is unknown. |
| `VirtualNames.RoundTrip` | yocto/poky/bitbake/lib/bb/cache.py:341-366 | A virtual name decodes to its recipe, class and multiconfig exactly if these are representable. |
| `VirtualNames.RoundTripColonFree` | yocto/poky/bitbake/lib/bb/cache.py:341-366 | In particular for colon-free recipe and multiconfig and any class, colons included. |
| `VirtualNames.NameRoundTrip` | yocto/poky/bitbake/lib/bb/cache.py:341-366 | The other way round: encoding what a name decodes to gives the name, except exactly where it spells out an empty multiconfig or an empty class. |
| `Text.StartsWithMeaning` | yocto/poky/bitbake/lib/bb/cache.py:346-351 | A prefix is what something, possibly nothing, may follow. |
| `VirtualNames.PlainVariant` | yocto/poky/bitbake/lib/bb/cache.py:368-384 | A variant without multiconfig is named as its class. |
| `VirtualNames.MultiConfigVariant` | yocto/poky/bitbake/lib/bb/cache.py:368-384 | The variant `mc:M:CLS` is named as class CLS of multiconfig M exactly if M is non-empty and CLS does not start with a colon. |
| `VirtualNames.VariantEndsInRecipe` | yocto/poky/bitbake/lib/bb/cache.py:368-384 | What follows the last colon of a variant name is the recipe. |
| `VirtualNames.VariantsDoNotCollide` | yocto/poky/bitbake/lib/bb/cache.py:368-384 | Variants of different colon-free recipes never have the same name. |
| `RecipeCache.Cache.Remove` | yocto/poky/bitbake/lib/bb/cache.py:660-670 | The recipe leaves the records and the clean set; nothing else changes. |
| `RecipeCache.Cache.CheckRecord` | yocto/poky/bitbake/lib/bb/cache.py:578-632 | Yes exactly if the times of the recipe and of every dependency are the recorded ones and the recipe has one, every checksum file is there or not as recorded, and the appends are the recorded ones. |
| `RecipeCache.Cache.CacheValidUpdate` | yocto/poky/bitbake/lib/bb/cache.py:566-658 | The thorough check changes the state as specified on every exit. |
| `RecipeCache.Cache.CacheValid` | yocto/poky/bitbake/lib/bb/cache.py:555-564 | The memoised check changes the state and answers as specified. |
| `RecipeCache.Cache.LoadCached` | yocto/poky/bitbake/lib/bb/cache.py:541-553 | The records of all variants in order, or an error where one is missing. |
| `RecipeCache.AnswersAreFullChecks` | yocto/poky/bitbake/lib/bb/cache.py:555-658 | Over any sequence of checks and removals, the answer for a recipe is yes exactly if it was never removed and the full check on the initial cache, with the appends of its first check, passes. |
| `RecipeCache.RecordMeaning` | yocto/poky/bitbake/lib/bb/cache.py:574-632 | The check of a record means: recorded times, recorded presence of the checksum files, and the recorded appends. |
| `RecipeCache.FirstAnswerMeaning` | yocto/poky/bitbake/lib/bb/cache.py:555-658 | After any checks of other recipes and any removals, the first check of a recipe says yes exactly if it was not removed, all times, files and appends are as recorded, and every variant has one record of each class. |
| `RecipeCache.ChangesAreSeen` | yocto/poky/bitbake/lib/bb/cache.py:555-632 | After a yes, a session with other files and appends says yes again exactly if the appends are the same and no time of the recipe or a dependency, and no presence of a recorded checksum file, has changed: one change is enough for a no, and changes of other files do not matter. |
| `RecipeCache.ValidCanBeLoaded` | yocto/poky/bitbake/lib/bb/cache.py:541-564 | After a yes, loading finds every variant, with its records as first loaded. |
| `RecipeCache.VariantsAllOrNone` | yocto/poky/bitbake/lib/bb/cache.py:634-670 | The variants are clean all together or not at all, except exactly when a recipe that had passed its check was removed and has a variant besides itself. |
| `RecipeCache.RemovedVariantStaysClean` | yocto/poky/bitbake/lib/bb/cache.py:634-670 | A run in which a removed recipe leaves its other variant marked clean. |
| `RecipeCache.RunInvariant` | yocto/poky/bitbake/lib/bb/cache.py:541-670 | What every run keeps: the state belongs to each recipe as its own history says, whatever happens to others. |
| `CacheFiles.CacheStore.WriteKey` | yocto/poky/bitbake/lib/bb/cache.py:691-694 | The records of one key that belong to the class are dumped, each behind the key. |
| `CacheFiles.CacheStore.WriteClass` | yocto/poky/bitbake/lib/bb/cache.py:681-694 | One file holds the versions and the records of its class, for the keys in order. |
| `CacheFiles.CacheStore.Sync` | yocto/poky/bitbake/lib/bb/cache.py:672-697 | Every class file is written as specified and no other file changes; nothing is written when the cache is clean. |
| `CacheFiles.CacheStore.LoadFile` | yocto/poky/bitbake/lib/bb/cache.py:490-506 | Every record of a file is appended to the list of its key, up to the first malformed object. |
| `CacheFiles.CacheStore.LoadCachefile` | yocto/poky/bitbake/lib/bb/cache.py:465-513 | All class files are loaded in order; a file of another version, or without versions, stops with 0 but leaves what was loaded before. |
| `CacheFiles.GroupedIff` | yocto/poky/bitbake/lib/bb/cache.py:690-694 | Splitting a list by class and joining the parts leaves it alone exactly if it is in class order. |
| `CacheFiles.OnePerClassInOrder` | yocto/poky/bitbake/lib/bb/cache.py:533-537 | Lists with one record per class in class order are of that kind. |
| `CacheFiles.SaveLoadRoundTrip` | yocto/poky/bitbake/lib/bb/cache.py:465-513 | Loading what was saved gives back the same map exactly if every list is non-empty and in class order. |
| `CacheFiles.EmptyListLost` | yocto/poky/bitbake/lib/bb/cache.py:690-694 | A key with an empty list is gone after saving and loading. |
| `CacheFiles.OtherVersionEndsLoading` | yocto/poky/bitbake/lib/bb/cache.py:468-509 | Exactly the entries of the files up to the first one of another cache or BitBake version, or without versions, are loaded. |
| `CacheFiles.OtherBitBakeLoadsNothing` | yocto/poky/bitbake/lib/bb/cache.py:484-486 | What another version of BitBake has saved is not loaded. |
| `CacheFiles.ParseStops` | yocto/poky/bitbake/lib/bb/cache.py:490-500 | Of one file the entries before the first odd object count, and nothing behind it. |
| `CacheFiles.SaveAndLoad` | yocto/poky/bitbake/lib/bb/cache.py:465-513 | The two operations one after the other give back the map and the number of its keys. |
| `CowDict.Isolation` | yocto/poky/bitbake/lib/bb/COW.py:45-147 | No set, delete, revert, read or change in place through a dictionary is visible in one that does not inherit from it, ancestor or sibling. |
| `CowDict.OtherKeys` | yocto/poky/bitbake/lib/bb/COW.py:45-113 | The other keys of the dictionary keep their values. |
| `CowDict.ReadChangesNothing` | yocto/poky/bitbake/lib/bb/COW.py:61-105 | A read, copying or not, changes what no dictionary shows under no key. |
| `CowDict.SetDataEffect` | yocto/poky/bitbake/lib/bb/COW.py:54-60 | A mutable value set is read back exactly if no plain value and no deletion of the key is visible in the chain. |
| `CowDict.SetPlainEffect` | yocto/poky/bitbake/lib/bb/COW.py:54-60 | Plain values are read back; the empty tuple, and a deletion, read as a missing key. |
| `CowDict.ChangeEffect` | yocto/poky/bitbake/lib/bb/COW.py:61-105 | A change in place is seen if there was a mutable value, and changes nothing else. |
| `CowDict.RevertEffect` | yocto/poky/bitbake/lib/bb/COW.py:110-113 | Reverting shows the parent's value exactly if the level holds no mutable value that the plain one had hidden. |
| `CowDict.RevertUncovers` | yocto/poky/bitbake/lib/bb/COW.py:110-113 | A run in which that fails: a list and then an atom set on a copy, and reverted. |
| `CowDict.CopyEffect` | yocto/poky/bitbake/lib/bb/COW.py:45-52 | A copy shows under every key what the original shows. |
| `CowDict.StepRefines` | yocto/poky/bitbake/lib/bb/COW.py:45-147 | Each allowed operation does to every dictionary of the tree what it does to an independent plain map. |
| `CowDict.RunRefines` | yocto/poky/bitbake/lib/bb/COW.py:45-147 | Over every allowed run every dictionary shows what its independent plain map shows. |
| `CowDict.PlainHidesMutable` | yocto/poky/bitbake/lib/bb/COW.py:61-81 | The excluded case: a list set after an atom is hidden by the atom. |
| `CowDict.CowDicts.Cow` | yocto/poky/bitbake/lib/bb/COW.py:45-52 | A new level that inherits from the given one; everything else stays. |
| `CowDict.CowDicts.Assign` | yocto/poky/bitbake/lib/bb/COW.py:54-60 | Assignment is the step of the model. |
| `CowDict.CowDicts.DelItem` | yocto/poky/bitbake/lib/bb/COW.py:107-108 | Deletion is the step of the model. |
| `CowDict.CowDicts.RevertItem` | yocto/poky/bitbake/lib/bb/COW.py:110-113 | Reverting is the step of the model, and an error where the level has no binding. |
| `CowDict.CowDicts.GetMutable` | yocto/poky/bitbake/lib/bb/COW.py:61-81 | The value found, copied to the level where it was inherited and may be written. |
| `CowDict.CowDicts.GetItem` | yocto/poky/bitbake/lib/bb/COW.py:89-105 | The item shown, or a missing key; with the promise not to write nothing changes, and without it a mutable value handed out is one that this very level holds. |
| `CowDict.CowDicts.ChangeInPlace` | yocto/poky/bitbake/lib/bb/COW.py:61-105 | A change of the value handed out is the step of the model. |
| `CowDict.CowDicts.HasKey` | yocto/poky/bitbake/lib/bb/COW.py:118-122 | True exactly if the dictionary shows something under the key. |
| `CowDict.CowDicts.ListItems` | yocto/poky/bitbake/lib/bb/COW.py:124-147 | Listing gives, as a set, exactly the items that reading key by key shows, of the keys bound under a name that does not start with two underscores, and changes no view. |
| `CowDict.ListedUnless` | yocto/poky/bitbake/lib/bb/COW.py:124-130 | Everything shown is listed, except exactly mutable values under the keys `""` and `"_"`. |
| `CowDict.UnderscoreNotListed` | yocto/poky/bitbake/lib/bb/COW.py:124-130 | A list under the key `"_"` can be read and is never listed. |
| `NotifierFrames.Notifier.ReadEvents` | yocto/poky/bitbake/lib/pyinotify.py:1201-1242 | Below the threshold nothing; otherwise all events of the block are queued, or when coalescing the new ones among them, up to an error where a record is cut short. |
| `NotifierFrames.Notifier.Enqueue` | yocto/poky/bitbake/lib/pyinotify.py:1233-1241 | An event is queued unless coalescing is on and its printed form was seen in the batch. |
| `NotifierFrames.Notifier.CoalesceEvents` | yocto/poky/bitbake/lib/pyinotify.py:1150-1167 | Switching coalescing off forgets the batch. |
| `NotifierFrames.Notifier.EndBatch` | yocto/poky/bitbake/lib/pyinotify.py:1269-1271 | After a batch every event is new again. |
| `NotifierFrames.RecordRoundTrip` | yocto/poky/bitbake/lib/pyinotify.py:1223-1233 | One record, anywhere in a block and padded in any way, is read back with its padding stripped, and reading goes on right behind it. |
| `Bytes.SignedMeaning` | yocto/poky/bitbake/lib/pyinotify.py:1226-1227 | A descriptor is the number in the signed range that has these bytes. |
| `NotifierFrames.BlockRoundTrip` | yocto/poky/bitbake/lib/pyinotify.py:1222-1242 | Any concatenation of encoded records is consumed exactly and gives every record back. |
| `NotifierFrames.CutShort` | yocto/poky/bitbake/lib/pyinotify.py:1224-1232 | A record of which bytes are missing, in the header or in the name, is an error. |
| `NotifierFrames.BlockCutShort` | yocto/poky/bitbake/lib/pyinotify.py:1222-1242 | The records before one that is cut short are read, and then the error is raised. |
| `NotifierFrames.StrInjective` | yocto/poky/bitbake/lib/pyinotify.py:461-521 | Two events print alike exactly if they agree in all fields, up to the printing of an empty name. |
| `NotifierFrames.SameIff` | yocto/poky/bitbake/lib/pyinotify.py:466-476 | The only different events that print alike: one has no name, the other is named by two quotes. |
| `NotifierFrames.QuotedNameLost` | yocto/poky/bitbake/lib/pyinotify.py:1234-1239 | Two different events of which coalescing loses the second. |
| `NotifierFrames.NewInFirstOccurrences` | yocto/poky/bitbake/lib/pyinotify.py:1234-1239 | An event is queued exactly if it is the first of its kind in the batch. |
| `NotifierFrames.NewInOrder` | yocto/poky/bitbake/lib/pyinotify.py:1234-1239 | The queued events are those at exactly the positions of first occurrences, in the order of reading. |
| `NotifierFrames.NewInDistinct` | yocto/poky/bitbake/lib/pyinotify.py:1234-1239 | No two queued events print alike, and all were read. |
| `NotifierFrames.NewInConcat` | yocto/poky/bitbake/lib/pyinotify.py:1222-1242 | Several reads of a batch queue what one read of all would queue. |
| `AutoAdd.ProcessEvents` | yocto/poky/bitbake/lib/pyinotify.py:1244-1272 | From one create event of a directory the self-extending queue drains; exactly the directories reached get watches with the inherited settings, all other watches stay, and the deliveries are exactly one for each thing that appears. |
| `AutoAdd.WatchesMeaning` | yocto/poky/bitbake/lib/pyinotify.py:670-716 | The directories watched are exactly those reached through directories that are neither excluded nor refused. |
| `AutoAdd.DeliveredOnce` | yocto/poky/bitbake/lib/pyinotify.py:670-716 | Each file and directory of an entered directory is announced exactly once, and nothing else is. |
| `AutoAdd.Notifier.FindWd` | yocto/poky/bitbake/lib/pyinotify.py:2015-2029 | The descriptor of a path, if it is watched. |
| `AutoAdd.Notifier.AddWatchTo` | yocto/poky/bitbake/lib/pyinotify.py:1789-1805 | No watch where the filter or the kernel says no; otherwise one with the given settings under a descriptor that is new or had that path, with IN_CREATE added for auto_add, and no other watch changes. |
| `AutoAdd.Notifier.ProcessInCreate` | yocto/poky/bitbake/lib/pyinotify.py:670-716 | A directory under an auto_add watch gets a watch, and events are made up for what is in it. |
| `AutoAdd.Notifier.MakeUpEvents` | yocto/poky/bitbake/lib/pyinotify.py:697-712 | One event per entry that is not watched yet, special files left out. |
| `AutoAdd.CreateEffect` | yocto/poky/bitbake/lib/pyinotify.py:670-716 | What a create event does to watches and queue, by the conditions of the source. |
| `AutoAdd.MadeUpMeaning` | yocto/poky/bitbake/lib/pyinotify.py:697-712 | One event for each entry that is neither special nor watched already, and no other. |
| `AutoAdd.Notifier.ProcessFirst` | yocto/poky/bitbake/lib/pyinotify.py:1250-1268 | One turn of the loop, case by case: an event of an unknown watch only leaves the queue, every other is delivered once; no watch for a file, without auto_add, or where filter or kernel refuse; otherwise a new directory has a watch like that of its parent, no other watch changes, and what is in it is announced behind the queue. |
| `AutoAdd.StepWatchInv` | yocto/poky/bitbake/lib/pyinotify.py:1244-1268 | A turn keeps the watches: those of the start, and those added with the inherited settings. |
| `AutoAdd.StepQueueInv` | yocto/poky/bitbake/lib/pyinotify.py:1244-1268 | A turn keeps the queue: it announces distinct things of the tree, nothing below which is watched. |
| `MovedWatches.SysProcessEvent.ProcessMovedFrom` | yocto/poky/bitbake/lib/pyinotify.py:718-726 | The cookie is tied to the source path. |
| `MovedWatches.SysProcessEvent.ProcessMovedTo` | yocto/poky/bitbake/lib/pyinotify.py:728-756 | The source path of a known cookie is tied to the destination; otherwise a subtree may have to be added. |
| `MovedWatches.SysProcessEvent.ProcessMoveSelf` | yocto/poky/bitbake/lib/pyinotify.py:758-798 | The loop renames every watch at or below the source. |
| `MovedWatches.MoveRelocates` | yocto/poky/bitbake/lib/pyinotify.py:718-798 | After the three events the watches at and below the source have its prefix replaced by the destination, all others are untouched; the moved watch itself is renamed once more if its destination is below the source. |
| `MovedWatches.MoveKeepsUnique` | yocto/poky/bitbake/lib/pyinotify.py:783-786 | With nothing watched at or below the destination, every path is still watched once. |
| `MovedWatches.MoveKeepsUnder` | yocto/poky/bitbake/lib/pyinotify.py:783-786 | Inside the moved subtree one watch is below another exactly if it was before. |
| `MovedWatches.MovedWatchItself` | yocto/poky/bitbake/lib/pyinotify.py:774-786 | The moved watch ends at the destination exactly if that is not below the source; otherwise it is renamed twice. |
| `MovedWatches.StalePathMisplaced` | yocto/poky/bitbake/lib/pyinotify.py:774-797 | How such a destination arises from a watch that was left with a stale path. |
| `MovedWatches.UnknownDestination` | yocto/poky/bitbake/lib/pyinotify.py:787-797 | A moved thing whose destination is not known gets the marked path once, and a path that is marked stays; nothing else changes. |
| `MovedWatches.NormPathMeaning` | yocto/poky/bitbake/lib/pyinotify.py:724 | Normalising a path is resolving its components behind no, one or two leading slashes, and three slashes are one. |
| `MovedWatches.DotsDrop` | yocto/poky/bitbake/lib/pyinotify.py:724 | Empty components and single dots do not matter. |
| `MovedWatches.ParentCancels` | yocto/poky/bitbake/lib/pyinotify.py:724 | A component and the double dots behind it cancel. |
| `MovedWatches.LeadingParents` | yocto/poky/bitbake/lib/pyinotify.py:724 | Leading double dots are dropped from an absolute path and kept in a relative one. |
| `MovedWatches.JoinForms` | yocto/poky/bitbake/lib/pyinotify.py:724 | Joining: an absolute name stands alone, and no second slash is put behind a directory. |
| `MovedWatches.NormPathClean` | yocto/poky/bitbake/lib/pyinotify.py:724-735 | Normalising leaves a clean path alone. |
| `Relocate.ElfFile.Read` | yocto/poky/scripts/relocate_sdk.py:79-81 | Reading advances by what was there to read. |
| `Relocate.ElfFile.Write` | yocto/poky/scripts/relocate_sdk.py:110-111 | Writing replaces bytes in place and extends a file only behind its end. |
| `RelocateMeaning.ReadMeaning` | yocto/poky/scripts/relocate_sdk.py:79-80 | What is read are the bytes at the position, as many as there are. |
| `RelocateMeaning.WriteMeaning` | yocto/poky/scripts/relocate_sdk.py:110-111 | Byte by byte what a write leaves, inside, at and behind the end of the file. |
| `RelocateMeaning.ReplaceAbsent` | yocto/poky/scripts/relocate_sdk.py:157 | A text without the built-in prefix stays as it is. |
| `RelocateMeaning.ReplaceFirst` | yocto/poky/scripts/relocate_sdk.py:157 | The first occurrence gives way to the new prefix, what is before it stays, and the search goes on behind it. |
| `RelocateMeaning.RoleByName` | yocto/poky/scripts/relocate_sdk.py:141-168 | The name in the string table decides what becomes of a section of program data. |
| `RelocateMeaning.OnlyProgramData` | yocto/poky/scripts/relocate_sdk.py:143-144 | A section of another type is left alone, whatever its name. |
| `RelocateMeaning.NameUnterminated` | yocto/poky/scripts/relocate_sdk.py:141 | A name that no NUL ends loses its last byte. |
| `ElfHeaders.IdentificationReadBack` | yocto/poky/scripts/relocate_sdk.py:32-49 | The identification of each class and byte order is recognised. |
| `ElfHeaders.IdentificationMeaning` | yocto/poky/scripts/relocate_sdk.py:38-49 | An image is left alone exactly without the first magic byte or with another class; the byte order is little-endian exactly for 1. |
| `ElfHeaders.HeaderReadBack` | yocto/poky/scripts/relocate_sdk.py:51-70 | Every field of an ELF header that is used is read back, in either class and byte order, whatever the other fields are. |
| `ElfHeaders.SegmentInTable` | yocto/poky/scripts/relocate_sdk.py:78-88 | Entry i of a table of program headers in a file is read back as the segment packed there. |
| `ElfHeaders.SectionInTable` | yocto/poky/scripts/relocate_sdk.py:133-139 | Entry i of a table of section headers in a file is read back as the section packed there. |
| `ElfHeaders.OtherSizesRefused` | yocto/poky/scripts/relocate_sdk.py:81-88 | Headers of another size than the format are refused. |
| `RelocateMeaning.SystemInterpreterMeaning` | yocto/poky/scripts/relocate_sdk.py:94-100 | The eleven bytes read are enough to tell an interpreter in one of the five system directories. |
| `RelocateMeaning.InterpreterMeaning` | yocto/poky/scripts/relocate_sdk.py:90-112 | The first segment of type 3 decides: a system interpreter or an empty segment stays, a path without room for a NUL is complained about, any other is written over the whole segment with NULs behind it. |
| `RelocateMeaning.NoInterpreter` | yocto/poky/scripts/relocate_sdk.py:90-112 | Without such a segment nothing changes. |
| `RelocateRun.RunInterpreter` | yocto/poky/scripts/relocate_sdk.py:72-112 | The loop over the program headers and the patch of the first PT_INTERP segment. |
| `RelocateRun.RunBlocks` | yocto/poky/scripts/relocate_sdk.py:168-184 | The loop over the 4096-byte blocks, with the file position as it moves. |
| `RelocateRun.RunSection` | yocto/poky/scripts/relocate_sdk.py:142-184 | What is done with a section of each name. |
| `RelocateRun.RunSections` | yocto/poky/scripts/relocate_sdk.py:133-184 | The loop over the section headers. |
| `RelocateRun.BuildTables` | yocto/poky/scripts/relocate_sdk.py:186-200 | The loop over the old directories builds the two tables, or fails when a length does not fit its word. |
| `RelocateRun.RunTables` | yocto/poky/scripts/relocate_sdk.py:185-209 | Both tables are written back, the first filled up with NULs. |
| `RelocateRun.RunDlSysdirs` | yocto/poky/scripts/relocate_sdk.py:114-209 | The whole function, from the section names to the tables. |
| `RelocateRun.RunImage` | yocto/poky/scripts/relocate_sdk.py:247-254 | One executable: left alone unless it is an ELF image of a known class. |
| `RelocateProofs.RelocationEffect` | yocto/poky/scripts/relocate_sdk.py:72-209 | On a successful run over an image whose patched regions are in bounds and apart from each other and from the headers, and whose tables fit: the length is kept, no byte outside the patched regions changes, the interpreter is the new path and at least one NUL, every loader cache path and every whole block is its own former contents substituted, stripped and filled up, both tables are rebuilt; and the run reports failure exactly if the interpreter does not fit. |
| `RelocateMeaning.PathMoved` | yocto/poky/scripts/relocate_sdk.py:155-183 | In a relocated image a loader cache path, or a prefix block, that was the built-in prefix and a rest without it is the new prefix and that rest, filled up with NULs. |
| `RelocateMeaning.PathStays` | yocto/poky/scripts/relocate_sdk.py:155-183 | One without the built-in prefix is as it was. |
| `RelocateMeaning.DirectoryMoved` | yocto/poky/scripts/relocate_sdk.py:186-209 | A directory below the built-in prefix is read back below the new one, and its word holds the new length; one without the prefix is read back as it was. |
| `RelocateMeaning.LeftAlone` | yocto/poky/scripts/relocate_sdk.py:241-254 | What is too short, no ELF image, or of another class is left as it is. |
| `RelocateSuccess.RelocationSucceeds` | yocto/poky/scripts/relocate_sdk.py:72-209 | A well laid out image is relocated successfully exactly if its headers can be read, every loader cache path and every whole prefix block leaves room for a NUL, and where the directory table is there is a table of lengths whose words hold the lengths. |
| `RelocateSuccess.BlocksSucceed` | yocto/poky/scripts/relocate_sdk.py:170-184 | The block loop succeeds exactly if each of the original blocks leaves room for a NUL. |
| `RelocateProofs.SectionsEffect` | yocto/poky/scripts/relocate_sdk.py:133-184 | After the section loop only regions of patched sections differ, each such section is done, and the tables found are those of the original image. |
| `RelocateProofs.HeadersKept` | yocto/poky/scripts/relocate_sdk.py:133-140 | Section headers read between writes say what they said at first. |
| `RelocateProofs.InterpreterEffect` | yocto/poky/scripts/relocate_sdk.py:72-112 | Only the interpreter segment changes; the flag says exactly whether the path fits. |
| `RelocateProofs.BlocksEffect` | yocto/poky/scripts/relocate_sdk.py:168-184 | Only whole blocks change, each by its own original contents. |
| `RelocateProofs.PaddedMeaning` | yocto/poky/scripts/relocate_sdk.py:157-164 | Filling up fails exactly if there is no room for a NUL, and keeps the text up to trailing NULs. |
| `LoaderTables.PathsOfStrings` | yocto/poky/scripts/relocate_sdk.py:186-195 | Splitting the table at NULs up to the first empty string gives the names back exactly if each of them is non-empty and NUL-free. |
| `RelocateMeaning.PathsEnd` | yocto/poky/scripts/relocate_sdk.py:186-192 | The table ends at the first empty name, whatever is behind it. |
| `RelocateMeaning.PathsUnterminated` | yocto/poky/scripts/relocate_sdk.py:186-192 | A last name without a NUL behind it counts too. |
| `LoaderTables.TablesAgree` | yocto/poky/scripts/relocate_sdk.py:185-209 | The i-th little-endian word is the length of the i-th substituted path; the paths read back are the substituted ones exactly if substitution left them clean, as it does with a non-empty, NUL-free prefix. |
| `LoaderTables.EmptyPrefixCutsTable` | yocto/poky/scripts/relocate_sdk.py:186-195 | With an empty prefix a directory that is the built-in prefix itself cuts the table short. |
| `LoaderTables.TableOverruns` | yocto/poky/scripts/relocate_sdk.py:202-209 | A directory table longer than its section overwrites what lies behind it, and the run succeeds. |
| `LoaderTables.LongPrefixOverwrites` | yocto/poky/scripts/relocate_sdk.py:202-209 | Such a run: one directory, a section just as long, and any prefix longer than the built-in one. |
| `LoaderTables.NthWord` | yocto/poky/scripts/relocate_sdk.py:197-200 | Word i of the table of lengths decodes to the length of the i-th path. |
| `LoaderTables.LengthsReadBack` | yocto/poky/scripts/relocate_sdk.py:197-209 | Every word read back from the table is the length of its path. |
| `LoaderTables.ReplaceClean` | yocto/poky/scripts/relocate_sdk.py:194 | A non-empty NUL-free prefix keeps names non-empty and NUL-free. |
| `Bytes.DecodeEncode` | yocto/poky/scripts/relocate_sdk.py:197-200 | Packing and unpacking an integer that fits gives it back, in both byte orders. |
| `Bytes.EncodeDecode` | yocto/poky/scripts/relocate_sdk.py:197-200 | Unpacking and packing gives the bytes back. |
| `Bytes.DecodeLittleFirst` | yocto/poky/scripts/relocate_sdk.py:37-41 | In little-endian order the first byte counts once, and the rest 256 times. |
| `Bytes.DecodeBigLast` | yocto/poky/scripts/relocate_sdk.py:37-41 | In big-endian order the last byte counts once, and the rest 256 times. |
| `Bytes.StripMeaning` | yocto/poky/scripts/relocate_sdk.py:158 | Stripping drops NULs at the end, and all of them. |
| `TasksBetween.TasksBetween` | yocto/poky/bitbake/lib/bb/build.py:996-1023 | On any graph the search ends; it is fatal exactly if some walk comes back to a task on it; on an acyclic graph it is not, and the result holds without duplicates exactly the tasks between the two. |
| `TasksBetween.Search.FollowChain` | yocto/poky/bitbake/lib/bb/build.py:1004-1021 | One recursive call on the shared chain: the chain is as before, the result gains exactly the tasks on walks to the end. |
| `TasksBetween.Search.AddChain` | yocto/poky/bitbake/lib/bb/build.py:1014-1016 | Every task of the chain joins the result once. |
| `TasksBetween.AcyclicNoReturn` | yocto/poky/bitbake/lib/bb/build.py:1007-1008 | On an acyclic graph no walk meets a task twice. |
| `TasksBetween.OnWalkIffBetween` | yocto/poky/bitbake/lib/bb/build.py:1004-1021 | On an acyclic graph the tasks on walks to the end are those reachable from the start from which the end is reachable. |
| `Fifo.FifoReader.ReadFifo` | yocto/poky/bitbake/lib/bb/build.py:479-516 | One read dispatches the complete messages of the buffer up to the first whose handler raises; that message and all that follows stay in the buffer, or else the unterminated tail. |
| `Fifo.FifoReader.ReadAll` | yocto/poky/bitbake/lib/bb/build.py:479-516 | However a stream is cut into reads: the calls are those for the NUL-terminated segments of the whole stream, the buffer is its unterminated tail. |
| `Fifo.FrameMessages` | yocto/poky/bitbake/lib/bb/build.py:483 | Cutting at NULs and joining with NULs are inverse. |
| `Fifo.MessagesFrame` | yocto/poky/bitbake/lib/bb/build.py:483 | A framed sequence of messages is cut into those messages. |
| `Fifo.MessagesAppend` | yocto/poky/bitbake/lib/bb/build.py:481-483 | More bytes only append messages: the tail alone is looked at again. |
| `Fifo.RaisedPrefix` | yocto/poky/bitbake/lib/bb/build.py:482-516 | What was dispatched before an exception does not depend on what follows. |
| `Fifo.MessageDispatched` | yocto/poky/bitbake/lib/bb/build.py:484-513 | The message of any call, its word, a blank and the text, is dispatched to that call; for a debug message the level comes first. |
| `Fifo.SentIsLogged` | yocto/poky/bitbake/lib/bb/build.py:479-516 | From the stream of the messages of any calls exactly these calls are made, once each and in order. |
| `Fifo.DebugMeaning` | yocto/poky/bitbake/lib/bb/build.py:507-511 | A debug message without a blank behind the level, or with a level that is no number, raises; every other gives its call. |
| `Fifo.OnlyDebugRaises` | yocto/poky/bitbake/lib/bb/build.py:490-513 | No message with another word raises. |
| `Fifo.FatalIsError` | yocto/poky/bitbake/lib/bb/build.py:501-504 | `bbfatal` is a second word for an error. |
| `Fifo.UnknownWord` | yocto/poky/bitbake/lib/bb/build.py:512-513 | Exactly the words beside the eight known ones are reported as unrecognised. |
| `Fifo.WordAlone` | yocto/poky/bitbake/lib/bb/build.py:486-489 | A word without a blank behind it has the empty text. |
| `CommandRuns.NoneLost` | cloud/internal/db/db.go:71-127 | Over every interleaving of selects, marks and reports, any of which may fail: a command that is not pending was selected into some call's result or named in a report of its own gateway. |
| `CommandRuns.MarksOwnCommands` | cloud/internal/db/db.go:108-110 | A mark only changes a command of the gateway that asked, though the statement does not name it. |
| `CommandRuns.StatusIsLastWrite` | cloud/internal/db/db.go:108-125 | The status of a command is what the last statement for it wrote. |
| `CommandRuns.ResultIsLastReport` | cloud/internal/db/db.go:108-125 | The result of a command is that of the last report of its own gateway that took effect, or the one it arrived with; marks leave it. |
| `CommandRuns.ReturnedNotSelectedAgain` | cloud/internal/db/db.go:71-114 | Where marks take effect and no report writes `pending`: what a call returned is never selected again, whatever overlaps. |
| `CommandRuns.AtMostOnceIff` | cloud/internal/db/db.go:71-114 | In such runs each command is returned at most once exactly if, among the calls that return, none selects a command that an earlier one has selected and not marked yet; calls that fail or die do not matter. |
| `CommandRuns.SequentialAtMostOnce` | cloud/internal/db/db.go:71-114 | So it is when each gateway asks again only after its earlier calls have returned or failed, however calls of different gateways overlap. |
| `CommandRuns.OtherGateways` | cloud/internal/db/db.go:75-81 | Calls of different gateways never select the same command. |
| `CommandRuns.OverlappingCalls` | cloud/internal/db/db.go:75-110 | A run in which two calls that overlap both return a command and the late mark overwrites the reported status. |
| `CommandRuns.FailedCallHarmless` | cloud/internal/db/db.go:91-97 | A run in which a call selects the same command and fails: the command is returned once. |
| `CommandRuns.DeadCallLoses` | cloud/internal/db/db.go:102-113 | A run in which the server dies between the marks and the return: the command is delivered, and no call returned it. |
| `CommandRuns.CallInRun` | cloud/internal/db/db.go:71-114 | The statements of a call that is not interrupted do what the call as a whole does. |
| `CommandQueue.CommandStore.CheckCommands` | cloud/internal/db/db.go:71-114 | The commands of the rows fetched in their order, every mark attempted; no mark on an error. |
| `CommandQueue.CommandStore.ReportCommandResult` | cloud/internal/db/db.go:116-127 | The command of that gateway gets the status and the result given; its other fields, and all other commands, stay. |
| `CommandQueue.MarkedRows` | cloud/internal/db/db.go:108-110 | The marks of a call change exactly the commands whose mark took effect. |
| `CommandQueue.SelectsCompose` | cloud/internal/db/db.go:75-81 | Two selects, the second after the marks of the first, are one select with the limits added. |
| `CommandQueue.CallsInTurn` | cloud/internal/db/db.go:71-114 | So many calls in turn return what one select with so many times the limit would. |
| `CommandQueue.AllDelivered` | cloud/internal/db/db.go:75-114 | Calls in turn return every pending command once, in the order of creation, exactly if there are at least n/20 of them, rounded up. |
| `CommandQueue.SelectExists` | cloud/internal/db/db.go:75-81 | For every table and limit there is an answer to the select. |
| `Telemetry.TelemetryStore.UploadTelemetry` | cloud/internal/db/db.go:48-69 | The loop runs the statements of an upload in order and acknowledges those without an error. |
| `Telemetry.FirstWins` | cloud/internal/db/db.go:54-67 | After any history of statements the row under a key is the one stored before or else that of the first statement that took effect, acknowledged or not. |
| `Telemetry.OnePerKeyAlways` | cloud/internal/db/db.go:54-58 | At most one row for each gateway and local id, over every history. |
| `Telemetry.RowsStay` | cloud/internal/db/db.go:54-58 | Rows are only added. |
| `Telemetry.AcceptedForEver` | cloud/internal/db/db.go:59-68 | Every id an upload accepts has a row, exactly one, and it stays the same whatever is uploaded later. |
| `Telemetry.AcceptedIds` | cloud/internal/db/db.go:60-66 | An id is accepted exactly if some statement for it succeeded. |
| `Telemetry.ResendChangesNothing` | cloud/internal/db/db.go:54-67 | Sending stored records again changes nothing. |
| `Telemetry.RetryChangesNothing` | cloud/internal/db/db.go:54-67 | A retry of statements that took effect changes nothing, also when others came in between. |
| `Telemetry.OwnContentsStored` | cloud/internal/db/db.go:65-66 | An acknowledged record is stored with its own contents exactly if the first statement for its id carried the same contents. |
| `Telemetry.ReusedIdDropped` | cloud/internal/db/db.go:54-66 | Two uploads of one id with different contents: both are acknowledged, the second is not stored. |
| `Sstate.SigsMeanGroups` | yocto/poky/scripts/sstate-cache-management.py:176-192 | The colon-joined keys of files and groups are equal exactly if the colon-free parts are. |
| `Sstate.RemoveDuplicated` | yocto/poky/scripts/sstate-cache-management.py:167-185 | Outside populate_lic all but one of the newest files of each kind are collected, each once. |
| `Sstate.LicensesExempt` | yocto/poky/scripts/sstate-cache-management.py:169-185 | Of two files of one kind at most one stays, with a newest one left, except license files, which all stay. |
| `Sstate.KeepNewest` | yocto/poky/scripts/sstate-cache-management.py:173-183 | The loop keeps one newest file per key and collects the others. |
| `Sstate.RemoveOrphans` | yocto/poky/scripts/sstate-cache-management.py:188-197 | Exactly the files of groups without an archive are collected. |
| `Sstate.RemoveByStamps` | yocto/poky/scripts/sstate-cache-management.py:164 | Exactly the files no stamp refers to are collected. |
| `Sstate.CacheDir.Clean` | yocto/poky/scripts/sstate-cache-management.py:303-325 | No deletion fails, and what is left is what was not collected. |
| `Sstate.CleanupLeaves` | yocto/poky/scripts/sstate-cache-management.py:300-325 | Both passes: each group with files left has an archive, exactly one newest file of each kind outside populate_lic is left in groups with an archive, license groups with an archive are untouched, groups without one are gone. |
| `Sstate.CleanupTwice` | yocto/poky/scripts/sstate-cache-management.py:300-325 | A second run with the same options removes nothing, whatever order it looks at the files in, exactly unless stamps and orphans were collected without duplicates and a stamped group with an archive has no stamped archive. |
| `Sstate.OrphansOnly` | yocto/poky/scripts/sstate-cache-management.py:308-312 | Removing orphans alone: a file stays exactly if its group has an archive left, and a group goes as a whole or not at all. |
| `Sstate.DuplicatesOnly` | yocto/poky/scripts/sstate-cache-management.py:304-305 | Removing duplicates alone leaves an archive in every group exactly if every group had one. |
| `Sstate.StampsAndOrphans` | yocto/poky/scripts/sstate-cache-management.py:306-312 | With stamps and orphans a group keeps files but loses its archive, except exactly when each group that has an archive and a stamped file has a stamped archive. |
| `Sstate.StampsLeaveAnOrphan` | yocto/poky/scripts/sstate-cache-management.py:306-312 | A cache in which that happens, and what a second run then removes. |

## Left out

- BitBake's multi-process merge has one merger, whose table was loaded from the stored file; a saver that dies in the middle of its write is not a step, but unreadable files left by earlier runs are there from the start.
- Pickling is a list of objects; a file that ends early is a list that ends early. Progress events and log messages are not modelled.
- RecipeCache.Cache.CheckRecord: takes the file checksum lists as parsed pairs of name and expected existence; stripping, splitting by regular expression and `rsplit` of the text are not modelled.
- Orders that Python leaves open (directory listings, sets) are parameters or arbitrary; dictionaries are listed in an order given as a parameter.
- CowDict: keys that begin with two underscores, end like a suffixed name, or are names of the metaclass are left out, since `getattr` finds other attributes under them. Levels are records in a sequence, mutable values are cells of another, so a value that is itself a copy-on-write dictionary and values shared inside a shallow copy are not captured. A listing is a set of items: their order, and that a key bound under both of its names comes twice, are not captured. The set class, and the key listing that also yields deleted keys, are not modelled.
- NotifierFrames.Notifier.ReadEvents: how a record is parsed is a constant of the object, fixed by the byte order of the machine. Names are bytes; decoding them as UTF-8 is not modelled, nor are errors of the device read.
- AutoAdd: paths are sequences of components and the tree has no links and does not change while the queue is drained. `ignore_events` is off, other event types are not in the queue, globbing and recursive adding are not modelled.
- MovedWatches.SysProcessEvent.ProcessMovedTo: reports that a subtree has to be added, but does not add it; the cleanup of old move records, which works by time, is taken as not happening. Watches are values in a map.
- Removing watches recursively is not modelled: it deletes entries while a generator walks the same dictionary.
- RelocateRun.RunDlSysdirs: the new prefix replaces the old one literally; backslash escapes that `re.sub` would expand in a prefix are not modelled, so a prefix with a backslash is not covered.
- Relocate: reading program arguments, file permissions and the size check at the end are left out. Python 3 semantics of comparing bytes with text are followed.
- RelocateProofs.RelocationEffect: demands of all sections with a patched name that they are apart, also of a duplicate one that the script would not write to; what a failed run leaves behind is given by `Relocate.RelocateImage` only.
- TasksBetween takes the task graph as given; `d.getVarFlag` is not modelled.
- Fifo: decoding as UTF-8 is the identity on bytes, and the parsing of a debug level is a parameter.
- The cloud store leaves out `last_seen`, the times of delivery and completion, and the driver; `created_at` is a number and never NULL. Registration, health reports and update reports are single statements without an algorithm.
- CommandRuns.NoneLost: says that a command was selected into a call, not that the call returned it, since a server may die in between.
- CommandQueue.CommandStore.CheckCommands: the answer of the SELECT is a parameter that must be a possible one; rows may end early, since the source does not ask for the error of the iteration.
- Sstate takes file names as parsed parts, colon-free as the pattern for them demands; scanning directories, stat calls and the search of stamp files are not modelled.
- Expression printing (`codegen.py`), the checksum cache's own merge, the shell code parser and the CVE report are not modelled: the first and last do not keep what one would state, and the others depend on code that is not part of this model.
