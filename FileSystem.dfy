/** The part of the file system that a backup run touches: the world
    directory being archived and the backup directory holding the archives.
    Reading a file's bytes is abstracted to what the code makes of them: an
    archive is a list of entries, and the one entry the code parses is
    reduced to what Gson returns for it. */
module FileSystem {
  import opened Java

  /** The name of the metadata record inside an archive and in the source. */
  const DATA_FILE: string := "backupdata.json"
  /** The fixed name an archive is written under before it is promoted. */
  const TMP: string := "tmp"
  /** The suffix that makes a file a backup candidate. */
  const ZIP_SUFFIX: string := ".zip"

  /** A file's bytes, as Gson reads them into a `Backup.DataFile`: a record
      carrying a timestamp, `null`, or input that makes the parser throw. */
  datatype Content = Record(timestamp: long) | NullRecord | Garbage

  datatype ZipEntry = ZipEntry(name: string, content: Content)

  /** A file of the backup directory: its `length()`, and its entries when
      it opens as a zip (`None` when `new ZipFile(file)` throws). The length
      is informative only: the folder size the size pass reads is a
      parameter of the model, not computed from it. */
  datatype BackupFile = BackupFile(length: long, archive: Option<seq<ZipEntry>>)

  /** What a `java.io.File` path denotes. */
  datatype Path<T> = Missing | RegularFile | Directory(contents: T)

  /** The backup directory's files by name. */
  type Folder = map<string, BackupFile>

  /** The world directory's root-level regular files by name. */
  type SourceFolder = map<string, Content>

  /** `new File(dir, name).delete()`: removes the file unless its deletion
      fails, in which case nothing changes. */
  function DeleteFrom(p: Path<Folder>, name: string, locked: set<string>): (r: Path<Folder>)
    ensures r.Directory? <==> p.Directory?
    ensures r.Directory? ==> r.contents.Keys <= p.contents.Keys
    ensures r.Directory? ==> forall n :: n in r.contents ==> r.contents[n] == p.contents[n]
    ensures r.Directory? ==> (name in r.contents <==> name in p.contents && name in locked)
    ensures r.Directory? ==> forall n :: n in p.contents && n != name ==> n in r.contents
  {
    if p.Directory? && name !in locked then Directory(p.contents - {name}) else p
  }

  /** `listFiles` with the `.zip` filter: every candidate name exactly once,
      in an order the file system chooses; nothing when the path is not a
      directory. */
  ghost predicate IsZipListing(listing: seq<string>, p: Path<Folder>)
  {
    (forall i, j :: 0 <= i < j < |listing| ==> listing[i] != listing[j]) &&
    (p.Directory? ==> forall n :: n in listing <==> n in p.contents && EndsWith(n, ZIP_SUFFIX)) &&
    (!p.Directory? ==> listing == [])
  }

  class Disk {
    var source: Path<SourceFolder>
    var backups: Path<Folder>
    /** Names in the backup directory whose `delete()` fails (permissions,
        a file held open elsewhere). */
    const locked: set<string>

    constructor (source: Path<SourceFolder>, backups: Path<Folder>, locked: set<string>)
      ensures this.source == source && this.backups == backups && this.locked == locked
    {
      this.source := source;
      this.backups := backups;
      this.locked := locked;
    }

    /** `File.delete()` on a file of the backup directory. */
    method Delete(name: string) returns (deleted: bool)
      modifies this`backups
      ensures backups == DeleteFrom(old(backups), name, locked)
      ensures deleted <==> old(backups).Directory? && name in old(backups).contents && name !in locked
    {
      deleted := backups.Directory? && name in backups.contents && name !in locked;
      backups := DeleteFrom(backups, name, locked);
    }

    /** `backupDirectory.listFiles(filter)` for the `.zip` filter. */
    method ListZipFiles() returns (names: seq<string>)
      ensures IsZipListing(names, backups)
    {
      names := [];
      if backups.Directory? {
        var files := backups.contents;
        var rest := set n | n in files && EndsWith(n, ZIP_SUFFIX);
        while rest != {}
          invariant forall i, j :: 0 <= i < j < |names| ==> names[i] != names[j]
          invariant forall n :: n in names ==> n !in rest
          invariant forall n :: n in names || n in rest <==> n in files && EndsWith(n, ZIP_SUFFIX)
          decreases |rest|
        {
          var n :| n in rest;
          names := names + [n];
          rest := rest - {n};
        }
      }
    }

    /** Writes a root-level file of the source directory, replacing any
        earlier one of that name (`GsonUtils.writeToFile`). */
    method WriteSource(name: string, content: Content)
      requires source.Directory?
      modifies this`source
      ensures source == Directory(old(source).contents[name := content])
    {
      source := Directory(source.contents[name := content]);
    }

    /** `File.delete()` on a root-level file of the source directory. */
    method DeleteSource(name: string)
      requires source.Directory?
      modifies this`source
      ensures source == Directory(old(source).contents - {name})
    {
      source := Directory(source.contents - {name});
    }

    /** Creates or overwrites a file of the backup directory. */
    method WriteBackup(name: string, file: BackupFile)
      requires backups.Directory?
      modifies this`backups
      ensures backups == Directory(old(backups).contents[name := file])
    {
      backups := Directory(backups.contents[name := file]);
    }

    /** `new File(dir, from).renameTo(new File(dir, to))`; whether the
        operating system carries it out is `succeeds`, which is also what
        `renameTo` returns. */
    method Rename(from: string, to: string, succeeds: bool) returns (renamed: bool)
      requires backups.Directory? && from in backups.contents
      modifies this`backups
      ensures renamed == succeeds
      ensures backups == Renamed(old(backups), from, to, succeeds)
    {
      renamed := succeeds;
      backups := Renamed(backups, from, to, succeeds);
    }
  }

  /** The backup directory after a rename that does or does not happen. */
  function Renamed(p: Path<Folder>, from: string, to: string, succeeds: bool): (r: Path<Folder>)
    requires p.Directory? && from in p.contents
    ensures r.Directory?
    ensures succeeds ==> to in r.contents && r.contents[to] == p.contents[from]
    ensures succeeds && from != to ==> from !in r.contents
    ensures succeeds ==> forall n :: n != from && n != to ==>
      (n in r.contents <==> n in p.contents) && (n in r.contents ==> r.contents[n] == p.contents[n])
    ensures !succeeds ==> r == p
  {
    if succeeds then Directory((p.contents - {from})[to := p.contents[from]]) else p
  }
}
