# ServerTools-BACKUP in Dafny

This project models the local backup pipeline of ServerTools-BACKUP, a
Minecraft server mod, and proves its main properties. The pipeline has five
parts:

- **Retention engine** (`BackupCleanup`). It scans the backup directory for
  `.zip` archives that carry a `backupdata.json` record. It collects them in
  a `TreeSet` ordered by the recorded timestamp. Then it deletes backups
  oldest-first, in a fixed order: by age, then by count, then by folder size.
- **Snapshot protocol** (`Backup.run`). It writes the data file into the world
  directory, zips the world to `backupDir/tmp` and deletes the data file. It
  then unlocks world saving, renames `tmp` to the final name and runs
  cleanup.
- **Size probe** (`FileUtil.fileSize`). It sums file lengths over a file tree.
- **Auto-backup trigger** (`AutoBackupManager.tick`). On every twentieth
  end-of-tick it compares the whole minutes since the last automatic backup
  with the configured interval.
- **Manager helpers** (`BackupManager`). These are the checks on the
  configured backup path, the backup name, who receives backup messages,
  and the lock on world saving.

Modules, one per source file, plus two shared ones:

| module | models |
|---|---|
| `Java` | `long` and `int` as subset types, wrapping `long` subtraction, Java's truncating division, `Long.compare`, `String.endsWith`, and `Option`/`Result` for null and for thrown exceptions |
| `FileSystem` | The world directory and the backup directory as maps from file name to content. A backup file is its length plus its zip entries (`None` when it does not open as a zip). An entry's content is what Gson makes of it: a record, `null`, or input that throws. The `Disk` class holds both directories and the set of files whose `delete()` fails. |
| `BackupConfig` | The static configuration fields, as one value, with their initialisers |
| `FileUtil` | `fileSize` as a loop over a tree `datatype`, specified by a recursive sum |
| `BackupCleanup` | The `TreeSet` as a class over an ascending sequence. `scan` and the three passes are methods, each proved equal to a function of the state it is given. The functions carry the properties. |
| `BackupManager` | Constructor checks, `getBackupName`, `sendMessage`, and `lockSaving`/`unlockSaving` on a `Server` class holding the worlds and the static `worldSavingCache` |
| `AutoBackupManager` | `tick` as a class method, specified by a step function, with lemmas over sequences of tick events |
| `Backup` | The constructor checks, `run` as a method over a `Disk` and a `Server`, and `doBackup` run to completion |

What the environment decides is a parameter of the model:

- the clock: `dataTime`, one reading per visited element in the age pass,
  and two readings per tick event;
- the order in which `listFiles` returns names: a ghost `listing`, which the
  methods return and the functions take;
- `FileUtils.getFolderSize`, as a function;
- how `zipDirectory` ends (`ZipOutcome`);
- whether `renameTo` is carried out;
- which deletions fail (`Disk.locked`).

Behaviour of the code that the model keeps:

- `compareTo` looks at timestamps alone, so the `TreeSet` drops an element
  whose timestamp ties one already present. Of several archives that share
  a timestamp, only the one `listFiles` returns first enters the set; the
  later ones are never deleted by cleanup
  (`BackupCleanup.TiedCopyNeverDeleted`). Which archive comes first
  depends on the listing order, so the one kept out may be the original
  rather than the copy.
- The result of `File.delete()` is ignored. An element whose file cannot be
  deleted still leaves the set, and the file stays on disk.
- Only the exact value -1 switches a pass off. A count limit of 0, or one
  below -1, deletes every backup in the set.
- An archive with two records yields two elements that name the same file.
  When the older record expires, the file is deleted while the newer element
  stays in the set.
- `Backup.run` has no `finally`. When `zipDirectory` throws, nothing after it
  happens: the data file stays in the world directory, saving stays locked,
  and there is no rename and no cleanup.
- `worldSavingCache` is static and never cleared, so a lock that is never
  unlocked has a lasting effect. The next backup locks again and caches
  `true` for every world, and its unlock then leaves saving disabled
  (`BackupManager.DoubleLockLeavesSavingDisabled`). So after one failed
  backup, world saving stays off through every later successful backup.
- `lastBackup` starts at 0, so the first check after start-up starts a
  backup whenever the clock reads at least the interval past the epoch.
  With a real clock, that is the first check.

## Model

| member | source | states |
|---|---|---|
| FileUtil.UnitConstants | src/main/java/info/servertools/backup/FileUtil.java:24-26 | `KB`, `MB` and `GB` are 1024, 1048576 and 1073741824, and `GB` fits in a Java `int`. |
| FileUtil.FileSize | src/main/java/info/servertools/backup/FileUtil.java:51-69 | The looping probe returns `TotalSize` of the tree: 0 for a missing path, an unlistable directory or another kind of file; the length for a regular file; the sum over the children for a directory, 0 when it is empty. |
| FileUtil.TotalSizeNonNegative | src/main/java/info/servertools/backup/FileUtil.java:51-69 | When every regular file has a non-negative length, the reported size is non-negative. |
| FileUtil.SumSizesAppend | src/main/java/info/servertools/backup/FileUtil.java:57-62 | The sum over a listing splits over any division of the listing into two parts. |
| FileUtil.RemoveLowersTotal | src/main/java/info/servertools/backup/FileUtil.java:57-62 | Deleting any node of the tree lowers the total by exactly that node's own total; for a regular file, by its length. |
| BackupConfig.DefaultsDisableRetention | src/main/java/info/servertools/backup/BackupConfig.java:30-42 | Out of the box the age, size and count limits are all -1, the value that switches a pass off, and the auto-backup interval is 1440 minutes. |
| FileSystem.DeleteFrom | src/main/java/info/servertools/backup/BackupCleanup.java:57 | `delete()` removes exactly the named file unless its deletion fails, and leaves every other file as it was. |
| FileSystem.Disk.Delete | src/main/java/info/servertools/backup/BackupCleanup.java:57 | The directory becomes `DeleteFrom` of the old one; the result is true exactly when an unlocked file of that name existed. |
| FileSystem.Disk.ListZipFiles | src/main/java/info/servertools/backup/BackupCleanup.java:91-96 | The listing holds every name ending in `.zip` exactly once, in an order the file system chooses, and nothing when the path is not a directory. |
| FileSystem.Renamed | src/main/java/info/servertools/backup/Backup.java:66 | A rename that happens moves the file to the new name and leaves the others untouched; one that fails changes nothing. |
| FileSystem.Disk.Rename | src/main/java/info/servertools/backup/Backup.java:66 | `renameTo` returns whether the move happened, and the directory becomes `Renamed` of the old one. |
| FileSystem.Disk.WriteSource | src/main/java/info/servertools/backup/Backup.java:55 | The data file is written into the world directory, replacing any earlier one. |
| FileSystem.Disk.DeleteSource | src/main/java/info/servertools/backup/Backup.java:57 | The data file is removed from the world directory. |
| FileSystem.Disk.WriteBackup | src/main/java/info/servertools/backup/Backup.java:56 | The archive is written into the backup directory under the given name, replacing any earlier file. |
| BackupCleanup.CompareTo | src/main/java/info/servertools/backup/BackupCleanup.java:133-136 | The sign of the comparison is the order of the timestamps; the file is ignored. |
| BackupCleanup.CompareToIsConsistent | src/main/java/info/servertools/backup/BackupCleanup.java:133-136 | The comparison is antisymmetric and transitive, and two backups with one timestamp compare equal. |
| BackupCleanup.InsertMembers | src/main/java/info/servertools/backup/BackupCleanup.java:110 | After `add` the set holds only old elements and perhaps the new one; its timestamps are the old ones plus the new one; with no tie the new element is added and nothing is lost. |
| BackupCleanup.InsertOrdered | src/main/java/info/servertools/backup/BackupCleanup.java:110 | `add` keeps the set ascending by timestamp, and an element tying an existing timestamp leaves the set unchanged. |
| BackupCleanup.BackupSet.Add | src/main/java/info/servertools/backup/BackupCleanup.java:110 | The elements become `Insert` of the old ones; the result says whether the timestamp was new; the ordering invariant is kept. |
| BackupCleanup.BackupSet.RemoveAt | src/main/java/info/servertools/backup/BackupCleanup.java:58 | `iterator.remove()` drops exactly the visited element and keeps the ordering invariant. |
| BackupCleanup.WalkSound | src/main/java/info/servertools/backup/BackupCleanup.java:102-113 | Every timestamp read from an archive comes from an entry named exactly `backupdata.json` that parsed to a record carrying it. |
| BackupCleanup.WalkStopsAtThrow | src/main/java/info/servertools/backup/BackupCleanup.java:100-117 | Once an entry throws, the rest of that archive is ignored, and what was added before the throw stays added. |
| BackupCleanup.WalkFindsUniformRecord | src/main/java/info/servertools/backup/BackupCleanup.java:102-113 | An archive all of whose `backupdata.json` entries hold the record `t`, and which has at least one, yields `t` and nothing else, without throwing. |
| BackupCleanup.AddAllMembers | src/main/java/info/servertools/backup/BackupCleanup.java:102-113 | One archive's `add` calls contribute exactly its timestamps, and only elements naming that archive. |
| BackupCleanup.AddAllOrdered | src/main/java/info/servertools/backup/BackupCleanup.java:102-113 | One archive's `add` calls keep the set ascending, and change nothing when all its timestamps are already present. |
| BackupCleanup.ScanListingSound | src/main/java/info/servertools/backup/BackupCleanup.java:98-119 | Each scanned element names a listed file that is present and records the element's timestamp. |
| BackupCleanup.ScanListingTimestamp | src/main/java/info/servertools/backup/BackupCleanup.java:98-119 | A timestamp is in the scanned set if and only if some listed file records it. |
| BackupCleanup.ScanListingAscending | src/main/java/info/servertools/backup/BackupCleanup.java:98-119 | The scanned set is ascending by timestamp, one element per timestamp. |
| BackupCleanup.ScanSound | src/main/java/info/servertools/backup/BackupCleanup.java:86-122 | A scanned element is a `.zip` file that opens as an archive and holds a `backupdata.json` entry parsing to a record with its timestamp; for a missing directory or a regular file the set is empty. |
| BackupCleanup.TmpNeverScanned | src/main/java/info/servertools/backup/BackupCleanup.java:91-96 | The temporary archive `tmp` is never a candidate, whatever it holds. |
| BackupCleanup.TiedCopyNotScanned | src/main/java/info/servertools/backup/BackupCleanup.java:110 | A file whose timestamps were all recorded by files listed before it never enters the set. |
| BackupCleanup.AgePassExact | src/main/java/info/servertools/backup/BackupCleanup.java:48-61 | With the pass on, an element leaves the set exactly when its whole-day age (Java `long` arithmetic) exceeds the lifespan; such a file is deleted unless its deletion fails; a file none of whose elements expired stays; only files of the set are touched. |
| BackupCleanup.CountRemoved | src/main/java/info/servertools/backup/BackupCleanup.java:63-72 | The count pass removes nothing when off; otherwise it removes until at most the limit remain or the set is empty, removes no more than needed, and leaves exactly the limit when the set was larger than a non-negative limit. |
| BackupCleanup.CountPassKeepsNewest | src/main/java/info/servertools/backup/BackupCleanup.java:63-72 | The count pass deletes a prefix of the set: every victim is older than every survivor, at most the limit survive or none does, and a limit of 0 empties the set. |
| BackupCleanup.SizeLimit | src/main/java/info/servertools/backup/BackupCleanup.java:77 | The size limit is `maxFolderSize` megabytes and fits in a `long`. |
| BackupCleanup.SizeCut | src/main/java/info/servertools/backup/BackupCleanup.java:74-84 | The size loop stops at the first position where the folder is within the limit, or at the end of the set, and the folder was over the limit before every earlier deletion. |
| BackupCleanup.SizePassOldestFirst | src/main/java/info/servertools/backup/BackupCleanup.java:74-84 | The size pass deletes a prefix of the set, each deletion made while the folder was over the limit, and ends within the limit or with the set exhausted. |
| BackupCleanup.CleanupDeletesOnlyScanned | src/main/java/info/servertools/backup/BackupCleanup.java:40-46 | After scan, age, count and size in that order, only files of the scanned set are deleted, never one whose deletion fails, and the set stays ascending. |
| BackupCleanup.NoDirectoryNoDeletion | src/main/java/info/servertools/backup/BackupCleanup.java:89 | A missing backup directory, or a file in its place, gives an empty set and no deletion. |
| BackupCleanup.DisabledLimitsDeleteNothing | src/main/java/info/servertools/backup/BackupCleanup.java:49-75 | With all three limits at -1, cleanup deletes nothing. |
| BackupCleanup.TiedCopyNeverDeleted | src/main/java/info/servertools/backup/BackupCleanup.java:40-46 | A file whose timestamps were all recorded by files listed before it survives cleanup unchanged, however far over its limits the directory is. |
| BackupCleanup.ScanArchive | src/main/java/info/servertools/backup/BackupCleanup.java:100-117 | The entry loop adds exactly one archive's timestamps, stopping at the first entry that throws. |
| BackupCleanup.ScanBackups | src/main/java/info/servertools/backup/BackupCleanup.java:86-122 | `scan` returns an ordered set equal to `Scan` of the directory, for the listing `listFiles` returned. |
| BackupCleanup.CheckOldBackups | src/main/java/info/servertools/backup/BackupCleanup.java:48-61 | The age loop leaves the directory and the set equal to `AgePass` of the old ones, with one clock reading per visited element. |
| BackupCleanup.CheckNumberBackups | src/main/java/info/servertools/backup/BackupCleanup.java:63-72 | The count loop leaves the directory and the set equal to `CountPass` of the old ones. |
| BackupCleanup.CheckBackupDirSize | src/main/java/info/servertools/backup/BackupCleanup.java:74-84 | The size loop leaves the directory and the set equal to `SizePass` of the old ones. |
| BackupCleanup.Run | src/main/java/info/servertools/backup/BackupCleanup.java:40-46 | `run` leaves the backup directory equal to `Cleaned` of the old one, for a zip listing of it. |
| BackupManager.CheckBackupPath | src/main/java/info/servertools/backup/BackupManager.java:53-66 | A null or empty path is rejected; so is a path naming a regular file; an existing directory is kept; a missing one is created empty. |
| BackupManager.DefaultPathAccepted | src/main/java/info/servertools/backup/BackupManager.java:53-66 | The default path `backup` is accepted exactly when no regular file is in its way. |
| BackupManager.BackupName | src/main/java/info/servertools/backup/BackupManager.java:92-94 | The backup name is the formatted date followed by `.zip`. |
| BackupManager.BackupNameIsCandidate | src/main/java/info/servertools/backup/BackupManager.java:92-94 | Distinct dates give distinct names; a name is never `tmp`; once present in the backup directory it is in every zip listing. |
| BackupManager.RecipientsExact | src/main/java/info/servertools/backup/BackupManager.java:101-112 | Each player is sent the message as often as listed if ops-and-op, all-users or whitelisted holds, and otherwise never. |
| BackupManager.SendMessage | src/main/java/info/servertools/backup/BackupManager.java:101-112 | The if / else-if chain sends the message to exactly `Recipients` of the player list, in list order. |
| BackupManager.Restored | src/main/java/info/servertools/backup/BackupManager.java:136-143 | A world with a cache entry gets the cached flag back; a world without one is unchanged. |
| BackupManager.CachedKeys | src/main/java/info/servertools/backup/BackupManager.java:127-133 | After the lock the cache has an entry for every world's dimension id, its keys are the old keys plus those ids, and entries for other ids keep their values. |
| BackupManager.CachedValue | src/main/java/info/servertools/backup/BackupManager.java:127-133 | With distinct dimension ids, the cached value for each world is its flag before the lock. |
| BackupManager.LockThenUnlockRestores | src/main/java/info/servertools/backup/BackupManager.java:127-143 | One lock followed by one unlock restores every world's original flag, given distinct dimension ids. |
| BackupManager.DoubleLockLeavesSavingDisabled | src/main/java/info/servertools/backup/BackupManager.java:129-130 | Two locks before an unlock cache `true` for every world, so the unlock leaves saving disabled everywhere. |
| BackupManager.UnlockTwiceIsUnlockOnce | src/main/java/info/servertools/backup/BackupManager.java:136-143 | The unlock does not clear the cache, so a second unlock changes nothing. |
| BackupManager.Server.LockSaving | src/main/java/info/servertools/backup/BackupManager.java:127-133 | Every world has saving disabled, and the cache is `Cached` of the old cache over the old worlds. |
| BackupManager.Server.UnlockSaving | src/main/java/info/servertools/backup/BackupManager.java:136-143 | The worlds become `Restored` of the old ones under the cache. |
| AutoBackupManager.Step | src/main/java/info/servertools/backup/AutoBackupManager.java:32-44 | A non-END event changes nothing; an END event advances the counter, and on the twentieth it resets it and starts a backup if and only if whole minutes since `lastBackup` reach the interval; `lastBackup` changes only then. |
| AutoBackupManager.TickCountsEnds | src/main/java/info/servertools/backup/AutoBackupManager.java:35-43 | The counter is the number of END events seen, modulo 20, so it stays in 0..19. |
| AutoBackupManager.StartsOnlyOnChecks | src/main/java/info/servertools/backup/AutoBackupManager.java:36 | A backup starts only on an END event whose count is a multiple of 20. |
| AutoBackupManager.LastBackupUntilFirstStart | src/main/java/info/servertools/backup/AutoBackupManager.java:40 | Until the first automatic backup, `lastBackup` keeps its initial value. |
| AutoBackupManager.FirstCheckSinceStart | src/main/java/info/servertools/backup/AutoBackupManager.java:24-37 | Since `lastBackup` starts at 0, the first check starts a backup exactly when the clock reads at least the interval in minutes past the epoch. |
| AutoBackupManager.LastBackupBetween | src/main/java/info/servertools/backup/AutoBackupManager.java:37-40 | Under a monotone clock, after a triggered backup `lastBackup` is never earlier than the time recorded for it, and never later than the next reading. |
| AutoBackupManager.StartsAreIntervalApart | src/main/java/info/servertools/backup/AutoBackupManager.java:37-40 | Under a monotone clock, any two automatic backups start at least the interval in minutes apart. |
| AutoBackupManager.AutoBackupManager.Tick | src/main/java/info/servertools/backup/AutoBackupManager.java:32-44 | The fields and the started flag are those given by `Step`, and the counter stays in range. |
| Backup.NewBackup | src/main/java/info/servertools/backup/Backup.java:37-44 | A missing source gives `FileNotFoundException`, a source that is not a directory an `IOException`, and a directory a backup with the given name. |
| Backup.DataFileRoundTrip | src/main/java/info/servertools/backup/Backup.java:53-56 | The timestamp written to `backupdata.json` comes back out of the archive, alone and without a throw; if the file is blacklisted the archive records nothing. |
| Backup.TmpChangesNoCandidate | src/main/java/info/servertools/backup/Backup.java:48 | Whatever `tmp` holds, the zip listings and the scanned set are unchanged. |
| Backup.RenameFailureAddsNoCandidate | src/main/java/info/servertools/backup/Backup.java:64-66 | When `renameTo` fails, cleanup sees exactly the candidates it saw before the backup. |
| Backup.FailedZipAddsNoCandidate | src/main/java/info/servertools/backup/Backup.java:56 | When `zipDirectory` throws, whatever it left in `tmp`, cleanup's candidates are unchanged. |
| Backup.PromotedBackupIsCandidate | src/main/java/info/servertools/backup/Backup.java:53-68 | A promoted archive named by `getBackupName` is a candidate, and the scan records its data-file timestamp. |
| Backup.Promoted | src/main/java/info/servertools/backup/Backup.java:56-66 | After a rename that happens the archive sits under the final name; after one that fails it sits under `tmp`. |
| Backup.LeftOver | src/main/java/info/servertools/backup/Backup.java:56 | A failed `zipDirectory` changes no file but `tmp`. |
| Backup.Run | src/main/java/info/servertools/backup/Backup.java:46-70 | On success the data file is gone from the source, saving is unlocked, and the backup directory is `Cleaned` of the promoted directory, whatever `renameTo` did; when `zipDirectory` throws, the error propagates, the data file stays, saving stays locked and only `tmp` may change. |
| Backup.DoBackup | src/main/java/info/servertools/backup/BackupManager.java:70-85 | Saving is locked and a backup run. A missing source gives `FileNotFoundException` and a file in its place an `IOException`; both change neither directory. A failed archive leaves the data file in the source and only `tmp` changed. Saving then stays disabled. On success the data file is gone, the backup directory is `Cleaned` of the promoted one, and, with distinct dimension ids, every world gets its original flag back. |

## Left out

- `UploadFTP` is not part of this model. It is a network client built on foreign FTP calls.
- `FileUtil.form` and `getSizeS` are left out: they format floating-point numbers for display.
- Threads, `synchronized` and `Backup.LOCK` are left out. Runs are sequential, one at a time. `doBackup`'s thread is modelled as running to completion right after the lock.
- `getInstance` (the lazy singleton) is left out. `CheckBackupPath` models the constructor's checks.
- `saveChunks`, logging, and the chat messages sent during a backup are left out. The recipient rule that `sendMessage` applies is modelled, in `BackupManager.SendMessage`.
- The date format of `getBackupName` is left out: the formatted date is a parameter. Only the `.zip` suffix matters to the rest of the code.
- `BackupConfig.init` (reading the configuration file) is left out. The model uses the field initialisers and the `int` types only.
- `FileUtils.zipDirectory` is modelled by an abstract contract (`Backup.ArchiveOf`) that covers the archive's root level only. Each root entry is a root file of the world directory whose name is not on `fileBlacklist`, with that file's content, and each such file has an entry. Matching `fileBlacklist` by file name, and not by path, is an assumption about code that is not part of this model. `directoryBlackList` and the entries in subdirectories are left unconstrained.
- `GsonUtils.writeToFile` and the data file's `delete()` in `Backup.run` always succeed in the model.
- A `RuntimeException` inside a backup is not modelled: only the constructor's and `zipDirectory`'s `IOException`s are.
- World saving is modelled as a flag per world, not as chunk writes during the archive.
- FileUtil.FileSize: the sum is an unbounded integer. An overflow of the Java `long` accumulator is not modelled, since it needs more than 8 exabytes of files. A `SecurityException` caught by the `try` is not modelled either.
- BackupManager.CheckBackupPath: a `mkdirs()` that fails, a result the code ignores, is not modelled. A missing path always becomes an empty directory.
- BackupCleanup.ScanBackups: `listFiles` returning null for a directory (an I/O error) is not modelled. A directory always lists its files.
- A `null` directory or source, rejected by `checkNotNull`, is not modelled: paths are values.
- Worlds are values in a sequence owned by `Server`, not shared `WorldServer` objects, so aliasing between worlds is not modelled.
- Backup.Run, Backup.DoBackup: when the backup directory is missing or is a regular file, `zipDirectory` is taken to throw without writing anything (`zip == ZipThrew(None)`). `zipDirectory` is not part of this model, so this behaviour is an assumption.
- AutoBackupManager.Step, AutoBackupManager.AutoBackupManager.Tick: `doBackup` is taken to return normally. In the code, when the configured backup path is empty or blocked by a file, `getInstance()` throws on every call, because `instance` stays null. The throw leaves `tick` before `lastBackup` is set and before the counter is reset, so the counter then passes 19 and the interval test runs on every end-of-tick. The model's counter invariant `0 <= tick < 20`, and the lemmas built on it, hold only when `BackupManager.CheckBackupPath` succeeds.
- AutoBackupManager.AutoBackupManager.Tick: calls `doBackup` as a flag (`started`): the backup itself is `Backup.DoBackup`.
