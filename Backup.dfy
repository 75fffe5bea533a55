/** One backup: the constructor's checks, the snapshot protocol of `run`
    (record the time in the world directory, archive it under a temporary
    name, clean up, release the saving lock, promote the archive, run
    cleanup), and `BackupManager.doBackup`, which locks saving and runs a
    backup. */
module Backup {
  import opened Java
  import opened FileSystem
  import opened BackupConfig
  import opened BackupManager
  import BackupCleanup

  /** The `IOException`s a backup can end with. */
  datatype IOError = SourceNotFound | SourceIsAFile | ZipFailed

  /** A constructed `Backup`: the name its archive is to be given. The two
      directories are the `Disk`'s. */
  datatype BackupJob = BackupJob(fileName: string)

  /** `new Backup(sourceDir, backupDir, fileName)`: the source directory
      must exist and be a directory. */
  function NewBackup(source: Path<SourceFolder>, fileName: string): (r: Result<BackupJob, IOError>)
    ensures r.Ok? <==> source.Directory?
    ensures r.Ok? ==> r.value.fileName == fileName
    ensures r == Err(SourceNotFound) <==> source.Missing?
    ensures r == Err(SourceIsAFile) <==> source.RegularFile?
  {
    if source.Missing? then Err(SourceNotFound)
    else if !source.Directory? then Err(SourceIsAFile)
    else Ok(BackupJob(fileName))
  }

  // ---------------------------------------------------------------------
  // What `zipDirectory` produces

  /** The root level of an archive of `files`: every entry whose name has
      no `/` is a root-level file not on the file blacklist, with that
      file's content, and every such file has an entry. */
  ghost predicate ArchiveOf(es: seq<ZipEntry>, files: SourceFolder, fileBlacklist: set<string>)
  {
    (forall i :: 0 <= i < |es| && '/' !in es[i].name ==>
      es[i].name in files && es[i].name !in fileBlacklist && es[i].content == files[es[i].name]) &&
    (forall n :: n in files && n !in fileBlacklist ==> exists i :: 0 <= i < |es| && es[i].name == n)
  }

  /** The file `zipDirectory` writes: it opens as an archive of `files`. */
  ghost predicate ZipsRootFiles(f: BackupFile, files: SourceFolder, fileBlacklist: set<string>)
  {
    f.archive.Some? && ArchiveOf(f.archive.value, files, fileBlacklist)
  }

  /** How the call to `zipDirectory` ends: with the archive written to
      `tmp`, or with an `IOException`, possibly leaving a partial `tmp`
      behind. */
  datatype ZipOutcome = Zipped(archive: BackupFile) | ZipThrew(leftover: Option<BackupFile>)

  /** The backup directory after a `zipDirectory` that threw. */
  function LeftOver(p: Path<Folder>, leftover: Option<BackupFile>): (q: Path<Folder>)
    ensures q.Directory? <==> p.Directory?
    ensures q.Directory? ==> forall n :: n != TMP ==>
      (n in q.contents <==> n in p.contents) && (n in q.contents ==> q.contents[n] == p.contents[n])
  {
    if p.Directory? && leftover.Some? then Directory(p.contents[TMP := leftover.value]) else p
  }

  /** The backup directory after the archive is written to `tmp` and
      `renameTo` is, or is not, carried out. */
  function Promoted(p: Path<Folder>, f: BackupFile, fileName: string, renamed: bool): (q: Path<Folder>)
    requires p.Directory?
    ensures q.Directory?
    ensures renamed ==> fileName in q.contents && q.contents[fileName] == f
    ensures !renamed ==> q == Directory(p.contents[TMP := f])
  {
    Renamed(Directory(p.contents[TMP := f]), TMP, fileName, renamed)
  }

  // ---------------------------------------------------------------------
  // Properties of a run

  /** The timestamp written to `backupdata.json` comes back out of the
      archive: if the record is not blacklisted, reading the archive finds
      that timestamp and no other, and does not throw; if it is blacklisted,
      the archive records nothing. */
  lemma DataFileRoundTrip(es: seq<ZipEntry>, files: SourceFolder, fileBlacklist: set<string>, t: long)
    requires ArchiveOf(es, files[DATA_FILE := Record(t)], fileBlacklist)
    ensures DATA_FILE !in fileBlacklist ==>
      !BackupCleanup.WalkEntries(es).threw && BackupCleanup.WalkEntries(es).found != [] &&
      forall x :: x in BackupCleanup.WalkEntries(es).found ==> x == t
    ensures DATA_FILE in fileBlacklist ==> BackupCleanup.WalkEntries(es).found == []
  {
    assert '/' !in DATA_FILE;
    if DATA_FILE !in fileBlacklist {
      assert exists i :: 0 <= i < |es| && es[i].name == DATA_FILE;
      BackupCleanup.WalkFindsUniformRecord(es, t);
    } else {
      WalkWithoutDataFile(es);
    }
  }

  /** An archive without a `backupdata.json` entry records nothing. */
  lemma {:induction false} WalkWithoutDataFile(es: seq<ZipEntry>)
    requires forall i :: 0 <= i < |es| ==> es[i].name != DATA_FILE
    ensures BackupCleanup.WalkEntries(es) == BackupCleanup.EntryWalk([], false)
  {
    if es != [] {
      WalkWithoutDataFile(es[..|es| - 1]);
    }
  }

  /** Files of name `tmp` are never listed, so what `tmp` holds does not
      change the scan. */
  lemma {:induction false} ScanIgnoresTmp(files: Folder, f: BackupFile, listing: seq<string>)
    requires TMP !in listing
    ensures BackupCleanup.ScanListing(files[TMP := f], listing) == BackupCleanup.ScanListing(files, listing)
  {
    if listing != [] {
      var init := listing[..|listing| - 1];
      assert forall n :: n in init ==> n in listing;
      ScanIgnoresTmp(files, f, init);
    }
  }

  /** Changing `tmp` changes neither the listings nor the scanned set. */
  lemma TmpChangesNoCandidate(p: Path<Folder>, f: BackupFile, listing: seq<string>)
    requires p.Directory?
    ensures IsZipListing(listing, p) <==> IsZipListing(listing, Directory(p.contents[TMP := f]))
    ensures IsZipListing(listing, p) ==>
      BackupCleanup.Scan(Directory(p.contents[TMP := f]), listing) == BackupCleanup.Scan(p, listing)
  {
    assert !EndsWith(TMP, ZIP_SUFFIX);
    if IsZipListing(listing, p) {
      ScanIgnoresTmp(p.contents, f, listing);
    }
  }

  /** A failed `renameTo` leaves the new archive under `tmp`: cleanup then
      sees exactly the candidates it would have seen without this backup. */
  lemma RenameFailureAddsNoCandidate(p: Path<Folder>, f: BackupFile, fileName: string, listing: seq<string>)
    requires p.Directory? && IsZipListing(listing, p)
    ensures IsZipListing(listing, Promoted(p, f, fileName, false))
    ensures BackupCleanup.Scan(Promoted(p, f, fileName, false), listing) == BackupCleanup.Scan(p, listing)
  {
    TmpChangesNoCandidate(p, f, listing);
  }

  /** A failed `zipDirectory` leaves no new candidate: whatever it left in
      `tmp`, the listings and the scanned set are those of the directory
      before the run. */
  lemma FailedZipAddsNoCandidate(p: Path<Folder>, leftover: Option<BackupFile>, listing: seq<string>)
    requires IsZipListing(listing, p)
    ensures IsZipListing(listing, LeftOver(p, leftover))
    ensures BackupCleanup.Scan(LeftOver(p, leftover), listing) == BackupCleanup.Scan(p, listing)
  {
    if p.Directory? && leftover.Some? {
      TmpChangesNoCandidate(p, leftover.value, listing);
    }
  }

  /** A promoted archive named by `getBackupName` is a cleanup candidate,
      and the scan records its data-file timestamp (in the element for this
      archive, or in that of another archive recording the same timestamp). */
  lemma PromotedBackupIsCandidate(p: Path<Folder>, f: BackupFile, date: string, listing: seq<string>,
                                  files: SourceFolder, fileBlacklist: set<string>, t: long)
    requires p.Directory? && DATA_FILE !in fileBlacklist
    requires ZipsRootFiles(f, files[DATA_FILE := Record(t)], fileBlacklist)
    requires IsZipListing(listing, Promoted(p, f, BackupName(date), true))
    ensures BackupName(date) in listing
    ensures BackupCleanup.RecordedTimestamps(f) != []
    ensures forall x :: x in BackupCleanup.RecordedTimestamps(f) ==> x == t
    ensures t in BackupCleanup.TimestampsOf(BackupCleanup.Scan(Promoted(p, f, BackupName(date), true), listing))
  {
    var q := Promoted(p, f, BackupName(date), true);
    var name := BackupName(date);
    DataFileRoundTrip(f.archive.value, files, fileBlacklist, t);
    assert name in listing;
    var i :| 0 <= i < |listing| && listing[i] == name;
    assert BackupCleanup.RecordedTimestamps(f)[0] in BackupCleanup.RecordedTimestamps(f);
    assert t in BackupCleanup.RecordedTimestamps(q.contents[listing[i]]);
    BackupCleanup.ScanListingTimestamp(q.contents, listing, t);
  }

  // ---------------------------------------------------------------------
  // The methods

  /** `Backup.run`. `dataTime` is the clock reading taken when the
      `DataFile` is created; `renameSucceeds` is what the operating system
      makes of `renameTo`, whose result the code ignores. On success the
      record is gone from the world directory, saving is unlocked, and
      cleanup has run on the directory holding the promoted archive; when
      `zipDirectory` throws, none of that happens. */
  method Run(job: BackupJob, disk: Disk, server: Server, cfg: Config, dataTime: long, zip: ZipOutcome,
             renameSucceeds: bool, clock: nat -> long, getFolderSize: Path<Folder> -> int)
    returns (r: Result<(), IOError>, ghost listing: seq<string>)
    requires disk.source.Directory?
    requires !disk.backups.Directory? ==> zip == ZipThrew(None)
    requires zip.Zipped? ==> ZipsRootFiles(zip.archive, disk.source.contents[DATA_FILE := Record(dataTime)], cfg.fileBlacklist)
    modifies disk`source, disk`backups, server`worlds
    ensures zip.ZipThrew? ==> r == Err(ZipFailed)
    ensures zip.ZipThrew? ==> disk.source == Directory(old(disk.source.contents)[DATA_FILE := Record(dataTime)])
    ensures zip.ZipThrew? ==> disk.backups == LeftOver(old(disk.backups), zip.leftover)
    ensures zip.ZipThrew? ==> server.worlds == old(server.worlds)
    ensures zip.Zipped? ==> r == Ok(())
    ensures zip.Zipped? ==> disk.source == Directory(old(disk.source.contents) - {DATA_FILE})
    ensures zip.Zipped? ==> server.worlds == Restored(old(server.worlds), server.worldSavingCache)
    ensures zip.Zipped? ==>
      var promoted := Promoted(old(disk.backups), zip.archive, job.fileName, renameSucceeds);
      IsZipListing(listing, promoted) &&
      disk.backups == BackupCleanup.Cleaned(promoted, listing, cfg, clock, getFolderSize, disk.locked).dir
  {
    disk.WriteSource(DATA_FILE, Record(dataTime));
    match zip {
      case ZipThrew(leftover) =>
        if leftover.Some? {
          disk.WriteBackup(TMP, leftover.value);
        }
        listing := [];
        return Err(ZipFailed), listing;
      case Zipped(archive) =>
        disk.WriteBackup(TMP, archive);
    }
    disk.DeleteSource(DATA_FILE);
    assert old(disk.source.contents)[DATA_FILE := Record(dataTime)] - {DATA_FILE} == old(disk.source.contents) - {DATA_FILE};
    server.UnlockSaving();
    var _ := disk.Rename(TMP, job.fileName, renameSucceeds);
    listing := BackupCleanup.Run(disk, cfg, clock, getFolderSize);
    r := Ok(());
  }

  /** `BackupManager.doBackup` followed by the backup it starts, run to the
      end: lock saving, construct the backup under the name for `date`,
      run it. A constructor or archive failure is reported, and saving is
      then left locked. */
  method DoBackup(disk: Disk, server: Server, cfg: Config, date: string, dataTime: long, zip: ZipOutcome,
                  renameSucceeds: bool, clock: nat -> long, getFolderSize: Path<Folder> -> int)
    returns (r: Result<(), IOError>, ghost listing: seq<string>)
    requires !disk.backups.Directory? ==> zip == ZipThrew(None)
    requires zip.Zipped? && disk.source.Directory? ==>
      ZipsRootFiles(zip.archive, disk.source.contents[DATA_FILE := Record(dataTime)], cfg.fileBlacklist)
    modifies disk`source, disk`backups, server
    ensures server.worldSavingCache == Cached(old(server.worldSavingCache), old(server.worlds))
    ensures r.Err? <==> !old(disk.source).Directory? || zip.ZipThrew?
    ensures old(disk.source).Missing? ==> r == Err(SourceNotFound)
    ensures old(disk.source).RegularFile? ==> r == Err(SourceIsAFile)
    ensures !old(disk.source).Directory? ==>
      disk.source == old(disk.source) && disk.backups == old(disk.backups)
    ensures old(disk.source).Directory? && zip.ZipThrew? ==>
      r == Err(ZipFailed) &&
      disk.source == Directory(old(disk.source).contents[DATA_FILE := Record(dataTime)]) &&
      disk.backups == LeftOver(old(disk.backups), zip.leftover)
    ensures r.Ok? ==> disk.source == Directory(old(disk.source).contents - {DATA_FILE})
    ensures r.Err? ==> server.worlds == AllDisabled(old(server.worlds))
    ensures r.Ok? ==> server.worlds == Restored(AllDisabled(old(server.worlds)), server.worldSavingCache)
    ensures r.Ok? && DistinctIds(old(server.worlds)) ==> server.worlds == old(server.worlds)
    ensures r.Ok? ==>
      var promoted := Promoted(old(disk.backups), zip.archive, BackupName(date), renameSucceeds);
      IsZipListing(listing, promoted) &&
      disk.backups == BackupCleanup.Cleaned(promoted, listing, cfg, clock, getFolderSize, disk.locked).dir
  {
    ghost var worlds, cache := server.worlds, server.worldSavingCache;
    server.LockSaving();
    var job := NewBackup(disk.source, BackupName(date));
    if job.Err? {
      listing := [];
      return Err(job.error), listing;
    }
    r, listing := Run(job.value, disk, server, cfg, dataTime, zip, renameSucceeds, clock, getFolderSize);
    if r.Ok? && DistinctIds(worlds) {
      LockThenUnlockRestores(cache, worlds);
    }
  }
}
