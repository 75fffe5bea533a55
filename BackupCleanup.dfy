/** The retention engine, `BackupCleanup`: scan the backup directory for
    `.zip` archives carrying a `backupdata.json` record, collect them in a
    `TreeSet` ordered by the recorded timestamp, then delete oldest-first
    by age, by count and by folder size, in that order. */
module BackupCleanup {
  import opened Java
  import opened FileSystem
  import opened BackupConfig

  const MILLIS_PER_DAY: int := 86400000
  /** commons-io `FileUtils.ONE_MB`. */
  const ONE_MB: int := 1048576

  /** `BackupCleanup.BackupMetadata`: a backup file and the timestamp read
      from its record. */
  datatype BackupMetadata = BackupMetadata(backupFile: string, timestamp: long)

  /** `BackupMetadata.compareTo`: by timestamp alone, so two backups of
      different files with one timestamp are equal to the `TreeSet`. */
  function CompareTo(a: BackupMetadata, b: BackupMetadata): (r: int)
    ensures r < 0 <==> a.timestamp < b.timestamp
    ensures r == 0 <==> a.timestamp == b.timestamp
    ensures r > 0 <==> a.timestamp > b.timestamp
  {
    LongCompare(a.timestamp, b.timestamp)
  }

  /** `compareTo` is antisymmetric and transitive, as `Comparable` demands,
      and blind to the file. */
  lemma CompareToIsConsistent(a: BackupMetadata, b: BackupMetadata, c: BackupMetadata)
    ensures CompareTo(a, b) < 0 <==> CompareTo(b, a) > 0
    ensures CompareTo(a, b) == 0 <==> CompareTo(b, a) == 0
    ensures CompareTo(a, b) < 0 && CompareTo(b, c) < 0 ==> CompareTo(a, c) < 0
    ensures a.timestamp == b.timestamp ==> CompareTo(a, b) == 0
  {
  }

  // ---------------------------------------------------------------------
  // The TreeSet

  /** The iteration order of a `TreeSet<BackupMetadata>`: strictly ascending
      by timestamp, because elements that compare equal are one element. */
  ghost predicate Ascending(s: seq<BackupMetadata>)
  {
    forall i, j :: 0 <= i < j < |s| ==> s[i].timestamp < s[j].timestamp
  }

  function TimestampsOf(s: seq<BackupMetadata>): set<long>
  {
    if s == [] then {} else {s[0].timestamp} + TimestampsOf(s[1..])
  }

  /** The timestamps of a set are those of its elements. */
  lemma {:induction false} TimestampsOfIndex(s: seq<BackupMetadata>)
    ensures forall i :: 0 <= i < |s| ==> s[i].timestamp in TimestampsOf(s)
    ensures forall t :: t in TimestampsOf(s) ==> exists i :: 0 <= i < |s| && s[i].timestamp == t
  {
    if s != [] {
      TimestampsOfIndex(s[1..]);
      forall t | t in TimestampsOf(s)
        ensures exists i :: 0 <= i < |s| && s[i].timestamp == t
      {
        if t != s[0].timestamp {
          var i :| 0 <= i < |s[1..]| && s[1..][i].timestamp == t;
          assert s[i + 1].timestamp == t;
        }
      }
      forall i | 0 < i < |s|
        ensures s[i].timestamp in TimestampsOf(s)
      {
        assert s[i] == s[1..][i - 1];
      }
    }
  }

  function NamesOf(s: seq<BackupMetadata>): set<string>
  {
    set x | x in s :: x.backupFile
  }

  /** `TreeSet.add`: the element goes in its place in the order, unless an
      element that compares equal to it is already there. */
  function Insert(s: seq<BackupMetadata>, m: BackupMetadata): seq<BackupMetadata>
  {
    if s == [] then [m]
    else if CompareTo(m, s[0]) < 0 then [m] + s
    else if CompareTo(m, s[0]) == 0 then s
    else [s[0]] + Insert(s[1..], m)
  }

  lemma ConsMembers(x: BackupMetadata, s: seq<BackupMetadata>)
    ensures forall y :: y in [x] + s <==> y == x || y in s
    ensures TimestampsOf([x] + s) == {x.timestamp} + TimestampsOf(s)
  {
    assert ([x] + s)[1..] == s;
  }

  lemma AscendingTail(s: seq<BackupMetadata>)
    requires Ascending(s) && s != []
    ensures Ascending(s[1..])
    ensures forall t :: t in TimestampsOf(s[1..]) ==> s[0].timestamp < t
  {
    TimestampsOfIndex(s[1..]);
    assert forall j :: 0 <= j < |s[1..]| ==> s[1..][j] == s[j + 1];
  }

  lemma AscendingCons(x: BackupMetadata, s: seq<BackupMetadata>)
    requires Ascending(s)
    requires forall t :: t in TimestampsOf(s) ==> x.timestamp < t
    ensures Ascending([x] + s)
  {
    TimestampsOfIndex(s);
    assert forall j :: 1 <= j < |[x] + s| ==> ([x] + s)[j] == s[j - 1];
  }

  /** What `add` leaves in the set: the old elements and perhaps the new
      one, whose timestamp is present afterwards in any case; when no
      element had that timestamp, the new one is added and nothing is lost. */
  lemma {:induction false} InsertMembers(s: seq<BackupMetadata>, m: BackupMetadata)
    ensures forall x :: x in Insert(s, m) ==> x in s || x == m
    ensures TimestampsOf(Insert(s, m)) == TimestampsOf(s) + {m.timestamp}
    ensures m.timestamp !in TimestampsOf(s) ==>
      |Insert(s, m)| == |s| + 1 && m in Insert(s, m) && forall x :: x in s ==> x in Insert(s, m)
    decreases |s|
  {
    if s == [] {
      ConsMembers(m, []);
      assert Insert(s, m) == [m];
    } else {
      ConsMembers(s[0], s[1..]);
      assert s == [s[0]] + s[1..];
      if CompareTo(m, s[0]) < 0 {
        ConsMembers(m, s);
      } else if CompareTo(m, s[0]) > 0 {
        InsertMembers(s[1..], m);
        ConsMembers(s[0], Insert(s[1..], m));
      }
    }
  }

  /** `add` keeps the set in order, and a tied timestamp leaves it as it
      was. */
  lemma {:induction false} InsertOrdered(s: seq<BackupMetadata>, m: BackupMetadata)
    requires Ascending(s)
    ensures Ascending(Insert(s, m))
    ensures m.timestamp in TimestampsOf(s) ==> Insert(s, m) == s
    decreases |s|
  {
    if s != [] {
      AscendingTail(s);
      assert s == [s[0]] + s[1..];
      if CompareTo(m, s[0]) < 0 {
        AscendingCons(m, s);
      } else if CompareTo(m, s[0]) > 0 {
        var rest := Insert(s[1..], m);
        InsertOrdered(s[1..], m);
        InsertMembers(s[1..], m);
        AscendingCons(s[0], rest);
      }
    }
  }

  /** The `TreeSet<BackupMetadata>` that `scan` builds and the passes
      shrink. */
  class BackupSet {
    var elements: seq<BackupMetadata>

    ghost predicate Valid()
      reads this
    {
      Ascending(elements)
    }

    constructor ()
      ensures Valid() && elements == []
    {
      elements := [];
    }

    /** `add`: `added` is false when an element with that timestamp is
        already present, and then nothing changes. */
    method Add(m: BackupMetadata) returns (added: bool)
      modifies this
      ensures elements == Insert(old(elements), m)
      ensures added <==> m.timestamp !in TimestampsOf(old(elements))
      ensures old(Valid()) ==> Valid()
    {
      if Valid() {
        InsertOrdered(elements, m);
      }
      added := m.timestamp !in TimestampsOf(elements);
      elements := Insert(elements, m);
    }

    /** `iterator.remove()` on the element at position `i` of the
        iteration. */
    method RemoveAt(i: nat)
      requires i < |elements|
      modifies this
      ensures elements == old(elements)[..i] + old(elements)[i + 1..]
      ensures old(Valid()) ==> Valid()
    {
      ghost var s := elements;
      elements := elements[..i] + elements[i + 1..];
      if Ascending(s) {
        forall a, b | 0 <= a < b < |elements|
          ensures elements[a].timestamp < elements[b].timestamp
        {
          var a' := if a < i then a else a + 1;
          var b' := if b < i then b else b + 1;
          assert elements[a] == s[a'] && elements[b] == s[b'];
        }
      }
    }
  }

  // ---------------------------------------------------------------------
  // scan

  /** What the loop over one archive's entries has gathered: the timestamps
      added so far, and whether reading an entry threw. */
  datatype EntryWalk = EntryWalk(found: seq<long>, threw: bool)

  /** The entry loop of `scan`: only entries named exactly `backupdata.json`
      are parsed; a `null` result is skipped; an exception ends the loop,
      and what was added before it stays added. */
  function WalkEntries(es: seq<ZipEntry>): EntryWalk
  {
    if es == [] then EntryWalk([], false)
    else
      var w := WalkEntries(es[..|es| - 1]);
      var e := es[|es| - 1];
      if w.threw || e.name != DATA_FILE then w
      else match e.content
        case Record(t) => EntryWalk(w.found + [t], false)
        case NullRecord => w
        case Garbage => EntryWalk(w.found, true)
  }

  /** The timestamps a file of the backup directory contributes. */
  function RecordedTimestamps(f: BackupFile): seq<long>
  {
    match f.archive
    case None => []
    case Some(es) => WalkEntries(es).found
  }

  /** Every timestamp found comes from an entry named `backupdata.json` that
      parsed to a record carrying it. */
  lemma {:induction false} WalkSound(es: seq<ZipEntry>)
    ensures forall t :: t in WalkEntries(es).found ==>
      exists i :: 0 <= i < |es| && es[i] == ZipEntry(DATA_FILE, Record(t))
  {
    if es != [] {
      var init := es[..|es| - 1];
      WalkSound(init);
      forall t | t in WalkEntries(es).found
        ensures exists i :: 0 <= i < |es| && es[i] == ZipEntry(DATA_FILE, Record(t))
      {
        if t in WalkEntries(init).found {
          var i :| 0 <= i < |init| && init[i] == ZipEntry(DATA_FILE, Record(t));
          assert es[i] == init[i];
        } else {
          assert es[|es| - 1] == ZipEntry(DATA_FILE, Record(t));
        }
      }
    }
  }

  /** Once an entry has thrown, the rest of the archive is not looked at. */
  lemma {:induction false} WalkStopsAtThrow(es: seq<ZipEntry>, j: nat)
    requires j <= |es|
    requires WalkEntries(es[..j]).threw
    ensures WalkEntries(es) == WalkEntries(es[..j])
    decreases |es| - j
  {
    if j < |es| {
      assert es[..j + 1][..j] == es[..j];
      assert WalkEntries(es[..j + 1]) == WalkEntries(es[..j]);
      WalkStopsAtThrow(es, j + 1);
    } else {
      assert es[..j] == es;
    }
  }

  /** An archive whose `backupdata.json` entries all hold the record `t`,
      and which has at least one, contributes `t` and nothing else. */
  lemma {:induction false} WalkFindsUniformRecord(es: seq<ZipEntry>, t: long)
    requires forall i :: 0 <= i < |es| && es[i].name == DATA_FILE ==> es[i].content == Record(t)
    ensures !WalkEntries(es).threw
    ensures forall x :: x in WalkEntries(es).found ==> x == t
    ensures (exists i :: 0 <= i < |es| && es[i].name == DATA_FILE) ==> WalkEntries(es).found != []
  {
    if es != [] {
      var init := es[..|es| - 1];
      WalkFindsUniformRecord(init, t);
      if exists i :: 0 <= i < |init| && init[i].name == DATA_FILE {
        var i :| 0 <= i < |init| && init[i].name == DATA_FILE;
        assert es[i] == init[i];
      }
    }
  }

  /** The `add` calls made for one file: its timestamps, in entry order. */
  function AddAll(s: seq<BackupMetadata>, name: string, ts: seq<long>): seq<BackupMetadata>
  {
    if ts == [] then s
    else Insert(AddAll(s, name, ts[..|ts| - 1]), BackupMetadata(name, ts[|ts| - 1]))
  }

  /** One file's `add` calls contribute its timestamps and only elements
      naming it. */
  lemma {:induction false} AddAllMembers(s: seq<BackupMetadata>, name: string, ts: seq<long>)
    ensures forall t :: t in TimestampsOf(AddAll(s, name, ts)) <==> t in TimestampsOf(s) || t in ts
    ensures forall x :: x in AddAll(s, name, ts) ==> x in s || (x.backupFile == name && x.timestamp in ts)
  {
    if ts != [] {
      var init := ts[..|ts| - 1];
      var last := ts[|ts| - 1];
      AddAllMembers(s, name, init);
      InsertMembers(AddAll(s, name, init), BackupMetadata(name, last));
      assert forall t :: t in ts <==> t in init || t == last;
    }
  }

  /** One file's `add` calls keep the set in order, and change nothing when
      all its timestamps are already present. */
  lemma {:induction false} AddAllOrdered(s: seq<BackupMetadata>, name: string, ts: seq<long>)
    requires Ascending(s)
    ensures Ascending(AddAll(s, name, ts))
    ensures (forall t :: t in ts ==> t in TimestampsOf(s)) ==> AddAll(s, name, ts) == s
  {
    if ts != [] {
      var init := ts[..|ts| - 1];
      AddAllOrdered(s, name, init);
      InsertOrdered(AddAll(s, name, init), BackupMetadata(name, ts[|ts| - 1]));
      assert forall t :: t in init ==> t in ts;
    }
  }

  /** The outer loop of `scan`, over the listing: a listed name no longer
      present cannot be opened, so it adds nothing. */
  function ScanListing(files: Folder, listing: seq<string>): seq<BackupMetadata>
  {
    if listing == [] then []
    else
      var prev := ScanListing(files, listing[..|listing| - 1]);
      var name := listing[|listing| - 1];
      if name in files then AddAll(prev, name, RecordedTimestamps(files[name])) else prev
  }

  /** `scan`: an empty set when the path is missing or not a directory. */
  function Scan(p: Path<Folder>, listing: seq<string>): seq<BackupMetadata>
  {
    if p.Directory? then ScanListing(p.contents, listing) else []
  }

  /** The timestamps the files of a listing record. */
  ghost predicate RecordedBy(files: Folder, listing: seq<string>, t: long)
  {
    exists i :: 0 <= i < |listing| && listing[i] in files && t in RecordedTimestamps(files[listing[i]])
  }

  /** Each scanned element is a listed file with a record carrying its
      timestamp. */
  lemma {:induction false} ScanListingSound(files: Folder, listing: seq<string>)
    ensures forall x :: x in ScanListing(files, listing) ==>
      x.backupFile in listing && x.backupFile in files &&
      x.timestamp in RecordedTimestamps(files[x.backupFile])
  {
    if listing != [] {
      var init := listing[..|listing| - 1];
      var name := listing[|listing| - 1];
      ScanListingSound(files, init);
      assert forall n :: n in init ==> n in listing;
      if name in files {
        AddAllMembers(ScanListing(files, init), name, RecordedTimestamps(files[name]));
      }
    }
  }

  /** A timestamp is represented in the scanned set exactly when some
      listed file records it. */
  lemma {:induction false} ScanListingTimestamp(files: Folder, listing: seq<string>, t: long)
    ensures t in TimestampsOf(ScanListing(files, listing)) <==> RecordedBy(files, listing, t)
  {
    if listing != [] {
      var init := listing[..|listing| - 1];
      var name := listing[|listing| - 1];
      ScanListingTimestamp(files, init, t);
      if name in files {
        AddAllMembers(ScanListing(files, init), name, RecordedTimestamps(files[name]));
      }
      if RecordedBy(files, init, t) {
        var i :| 0 <= i < |init| && init[i] in files && t in RecordedTimestamps(files[init[i]]);
        assert listing[i] == init[i];
      }
      if RecordedBy(files, listing, t) {
        var i :| 0 <= i < |listing| && listing[i] in files && t in RecordedTimestamps(files[listing[i]]);
        if i < |init| {
          assert init[i] == listing[i];
        }
      }
    }
  }

  /** The scanned set is in `TreeSet` order: one element per timestamp. */
  lemma {:induction false} ScanListingAscending(files: Folder, listing: seq<string>)
    ensures Ascending(ScanListing(files, listing))
  {
    if listing != [] {
      var init := listing[..|listing| - 1];
      var name := listing[|listing| - 1];
      ScanListingAscending(files, init);
      if name in files {
        AddAllOrdered(ScanListing(files, init), name, RecordedTimestamps(files[name]));
      }
    }
  }

  /** `f` opens as an archive with a `backupdata.json` entry that parses to
      a record carrying `t`. */
  ghost predicate HoldsRecord(f: BackupFile, t: long)
  {
    f.archive.Some? &&
    exists i :: 0 <= i < |f.archive.value| && f.archive.value[i] == ZipEntry(DATA_FILE, Record(t))
  }

  /** A file never enters the set unless it is a listed `.zip` that opens
      as an archive and holds a `backupdata.json` entry parsing to a record
      with that timestamp: unreadable archives, archives without the entry
      and entries parsing to null are never candidates. */
  lemma ScanSound(p: Path<Folder>, listing: seq<string>)
    requires IsZipListing(listing, p)
    ensures Ascending(Scan(p, listing))
    ensures forall x :: x in Scan(p, listing) ==>
      p.Directory? && x.backupFile in p.contents && EndsWith(x.backupFile, ZIP_SUFFIX) &&
      HoldsRecord(p.contents[x.backupFile], x.timestamp)
  {
    if p.Directory? {
      ScanListingSound(p.contents, listing);
      ScanListingAscending(p.contents, listing);
      forall x | x in Scan(p, listing)
        ensures HoldsRecord(p.contents[x.backupFile], x.timestamp)
      {
        WalkSound(p.contents[x.backupFile].archive.value);
      }
    }
  }

  /** The temporary archive is never a candidate, whatever it holds. */
  lemma TmpNeverScanned(p: Path<Folder>, listing: seq<string>)
    requires IsZipListing(listing, p)
    ensures TMP !in NamesOf(Scan(p, listing))
  {
    ScanSound(p, listing);
    assert !EndsWith(TMP, ZIP_SUFFIX);
  }

  /** A file all of whose timestamps were already recorded by files listed
      before it (a copy of an earlier backup, say) never enters the set: the
      `TreeSet` drops it as a duplicate. */
  lemma {:induction false} TiedCopyNotScanned(files: Folder, listing: seq<string>, j: nat)
    requires j < |listing|
    requires forall a, b :: 0 <= a < b < |listing| ==> listing[a] != listing[b]
    requires listing[j] in files
    requires forall t :: t in RecordedTimestamps(files[listing[j]]) ==> RecordedBy(files, listing[..j], t)
    ensures listing[j] !in NamesOf(ScanListing(files, listing))
    decreases |listing|
  {
    var init := listing[..|listing| - 1];
    var last := listing[|listing| - 1];
    var prev := ScanListing(files, init);
    ScanListingSound(files, init);
    if j == |listing| - 1 {
      forall t | t in RecordedTimestamps(files[last])
        ensures t in TimestampsOf(prev)
      {
        ScanListingTimestamp(files, init, t);
      }
      ScanListingAscending(files, init);
      assert init == listing[..j];
      assert forall x :: x in prev ==> x.backupFile in init;
      assert forall i :: 0 <= i < |init| ==> init[i] != last;
      AddAllOrdered(prev, last, RecordedTimestamps(files[last]));
    } else {
      assert init[..j] == listing[..j];
      TiedCopyNotScanned(files, init, j);
      if last in files {
        AddAllMembers(prev, last, RecordedTimestamps(files[last]));
      }
    }
  }

  // ---------------------------------------------------------------------
  // Deleting files

  /** The backup directory with the files of `names` deleted, except those
      whose deletion fails. */
  function DeleteNames(p: Path<Folder>, names: set<string>, locked: set<string>): Path<Folder>
  {
    if p.Directory? then Directory(map n | n in p.contents && (n !in names || n in locked) :: p.contents[n])
    else p
  }

  lemma DeleteNamesNone(p: Path<Folder>, locked: set<string>)
    ensures DeleteNames(p, {}, locked) == p
  {
    if p.Directory? {
      assert DeleteNames(p, {}, locked).contents == p.contents;
    }
  }

  /** One more `delete()` extends the set of deleted names. */
  lemma DeleteNamesStep(p: Path<Folder>, names: set<string>, x: string, locked: set<string>)
    ensures DeleteFrom(DeleteNames(p, names, locked), x, locked) == DeleteNames(p, names + {x}, locked)
  {
    if p.Directory? {
      assert DeleteFrom(DeleteNames(p, names, locked), x, locked).contents
        == DeleteNames(p, names + {x}, locked).contents;
    }
  }

  lemma NamesOfSnoc(s: seq<BackupMetadata>, x: BackupMetadata)
    ensures NamesOf(s + [x]) == NamesOf(s) + {x.backupFile}
  {
    assert forall y :: y in s + [x] <==> y in s || y == x;
  }

  /** `q` is `p` with some of the files in `names` gone, those not locked,
      and everything else untouched. */
  ghost predicate Shrinks(p: Path<Folder>, q: Path<Folder>, names: set<string>, locked: set<string>)
  {
    (!p.Directory? ==> q == p) &&
    (p.Directory? ==>
      q.Directory? &&
      (forall n :: n in q.contents ==> n in p.contents && q.contents[n] == p.contents[n]) &&
      (forall n :: n in p.contents && (n !in names || n in locked) ==> n in q.contents))
  }

  // ---------------------------------------------------------------------
  // The passes

  /** The state a pass leaves: the backup directory and the set. */
  datatype Retention = Retention(dir: Path<Folder>, remaining: seq<BackupMetadata>)

  /** What any pass does: it deletes only files of the set it was given,
      keeps a subset of that set, and keeps it ascending. */
  ghost predicate PassStep(r: Retention, r': Retention, locked: set<string>)
  {
    Shrinks(r.dir, r'.dir, NamesOf(r.remaining), locked) &&
    (forall x :: x in r'.remaining ==> x in r.remaining) &&
    (Ascending(r.remaining) ==> Ascending(r'.remaining))
  }

  lemma PassStepChain(r1: Retention, r2: Retention, r3: Retention, locked: set<string>)
    requires PassStep(r1, r2, locked) && PassStep(r2, r3, locked)
    ensures PassStep(r1, r3, locked)
  {
    assert NamesOf(r2.remaining) <= NamesOf(r1.remaining);
  }

  lemma DeletePrefixStep(r: Retention, k: nat, locked: set<string>)
    requires k <= |r.remaining|
    ensures PassStep(r, Retention(DeleteNames(r.dir, NamesOf(r.remaining[..k]), locked), r.remaining[k..]), locked)
  {
    var s := r.remaining;
    assert forall x :: x in s[k..] ==> x in s;
    assert forall x :: x in s[..k] ==> x in s;
    assert NamesOf(s[..k]) <= NamesOf(s);
    if Ascending(s) {
      forall a, b | 0 <= a < b < |s[k..]|
        ensures s[k..][a].timestamp < s[k..][b].timestamp
      {
        assert s[k..][a] == s[k + a] && s[k..][b] == s[k + b];
      }
    }
  }

  /** Age in whole days, in Java `long` arithmetic: the difference wraps
      around and the division truncates toward zero. */
  function AgeDays(now: long, timestamp: long): int
  {
    TruncDiv(LongSub(now, timestamp), MILLIS_PER_DAY)
  }

  predicate Expired(m: BackupMetadata, now: long, lifespanDays: int)
  {
    AgeDays(now, m.timestamp) > lifespanDays
  }

  /** The age pass's verdict on each element; `clock(i)` is the clock
      reading taken when the iteration reaches the `i`-th element. */
  function Verdicts(s: seq<BackupMetadata>, lifespanDays: int, clock: nat -> long): (doomed: seq<bool>)
    ensures |doomed| == |s|
    ensures forall i :: 0 <= i < |s| ==> doomed[i] == Expired(s[i], clock(i), lifespanDays)
  {
    seq(|s|, i requires 0 <= i < |s| => Expired(s[i], clock(i), lifespanDays))
  }

  /** The elements with a true verdict, in order. */
  function Removed(s: seq<BackupMetadata>, doomed: seq<bool>): seq<BackupMetadata>
    requires |doomed| == |s|
  {
    if s == [] then []
    else Removed(s[..|s| - 1], doomed[..|s| - 1]) + (if doomed[|s| - 1] then [s[|s| - 1]] else [])
  }

  /** The elements with a false verdict, in order. */
  function Kept(s: seq<BackupMetadata>, doomed: seq<bool>): seq<BackupMetadata>
    requires |doomed| == |s|
  {
    if s == [] then []
    else Kept(s[..|s| - 1], doomed[..|s| - 1]) + (if doomed[|s| - 1] then [] else [s[|s| - 1]])
  }

  /** Both parts are drawn from the set, and together they account for all
      of it. */
  lemma {:induction false} PartsOf(s: seq<BackupMetadata>, doomed: seq<bool>)
    requires |doomed| == |s|
    ensures forall x :: x in Removed(s, doomed) ==> x in s
    ensures forall x :: x in Kept(s, doomed) ==> x in s
    ensures |Kept(s, doomed)| + |Removed(s, doomed)| == |s|
  {
    if s != [] {
      var init := s[..|s| - 1];
      PartsOf(init, doomed[..|s| - 1]);
      assert forall x :: x in init ==> x in s;
    }
  }

  lemma AscendingSnoc(s: seq<BackupMetadata>, x: BackupMetadata)
    requires Ascending(s)
    requires forall y :: y in s ==> y.timestamp < x.timestamp
    ensures Ascending(s + [x])
  {
    forall a, b | 0 <= a < b < |s + [x]|
      ensures (s + [x])[a].timestamp < (s + [x])[b].timestamp
    {
      assert (s + [x])[a] == s[a];
      assert s[a] in s;
    }
  }

  lemma AscendingInit(s: seq<BackupMetadata>)
    requires Ascending(s) && s != []
    ensures Ascending(s[..|s| - 1])
    ensures forall y :: y in s[..|s| - 1] ==> y.timestamp < s[|s| - 1].timestamp && y != s[|s| - 1]
  {
    assert forall j :: 0 <= j < |s| - 1 ==> s[..|s| - 1][j] == s[j];
  }

  /** No element occurs twice; implied by `Ascending`. */
  ghost predicate Distinct(s: seq<BackupMetadata>)
  {
    forall i, j :: 0 <= i < j < |s| ==> s[i] != s[j]
  }

  lemma DistinctInit(s: seq<BackupMetadata>)
    requires Distinct(s) && s != []
    ensures Distinct(s[..|s| - 1]) && s[|s| - 1] !in s[..|s| - 1]
  {
  }

  lemma AscendingDistinct(s: seq<BackupMetadata>)
    requires Ascending(s)
    ensures Distinct(s)
  {
  }

  lemma InSnoc(a: seq<BackupMetadata>, y: BackupMetadata, c: bool, x: BackupMetadata)
    ensures x in a + (if c then [y] else []) <==> x in a || (c && x == y)
  {
  }

  /** The element at position `i` is removed exactly when its verdict is
      true, and kept exactly when it is false. */
  lemma {:induction false} PartitionAt(s: seq<BackupMetadata>, doomed: seq<bool>, i: nat)
    requires |doomed| == |s| && Distinct(s) && i < |s|
    ensures s[i] in Removed(s, doomed) <==> doomed[i]
    ensures s[i] in Kept(s, doomed) <==> !doomed[i]
  {
    var n := |s| - 1;
    var init := s[..n];
    InSnoc(Removed(init, doomed[..n]), s[n], doomed[n], s[i]);
    InSnoc(Kept(init, doomed[..n]), s[n], !doomed[n], s[i]);
    if i < n {
      assert s[i] == init[i] && s[i] != s[n] && doomed[i] == doomed[..n][i];
      DistinctInit(s);
      PartitionAt(init, doomed[..n], i);
    } else {
      DistinctInit(s);
      PartsOf(init, doomed[..n]);
    }
  }

  /** What is kept stays in order. */
  lemma {:induction false} KeptAscending(s: seq<BackupMetadata>, doomed: seq<bool>)
    requires |doomed| == |s| && Ascending(s)
    ensures Ascending(Kept(s, doomed))
  {
    if s != [] {
      var n := |s| - 1;
      var init := s[..n];
      AscendingInit(s);
      KeptAscending(init, doomed[..n]);
      PartsOf(init, doomed[..n]);
      if !doomed[n] {
        AscendingSnoc(Kept(init, doomed[..n]), s[n]);
      }
    }
  }

  lemma SliceCons(s: seq<BackupMetadata>, v: nat)
    requires v < |s|
    ensures s[v..] == [s[v]] + s[v + 1..]
  {
  }

  /** One more step of the iteration. */
  lemma PartitionStep(s: seq<BackupMetadata>, doomed: seq<bool>, v: nat)
    requires |doomed| == |s| && v < |s|
    ensures doomed[v] ==>
      Kept(s[..v + 1], doomed[..v + 1]) == Kept(s[..v], doomed[..v]) &&
      Removed(s[..v + 1], doomed[..v + 1]) == Removed(s[..v], doomed[..v]) + [s[v]]
    ensures !doomed[v] ==>
      Kept(s[..v + 1], doomed[..v + 1]) == Kept(s[..v], doomed[..v]) + [s[v]] &&
      Removed(s[..v + 1], doomed[..v + 1]) == Removed(s[..v], doomed[..v])
  {
    assert s[..v + 1][..v] == s[..v];
    assert doomed[..v + 1][..v] == doomed[..v];
    assert Kept(s[..v], doomed[..v]) + [] == Kept(s[..v], doomed[..v]);
    assert Removed(s[..v], doomed[..v]) + [] == Removed(s[..v], doomed[..v]);
  }

  /** The body of the age loop, visiting `s[v]` at position
      `|Kept(s[..v], doomed[..v])|` of the shrinking set `e`. */
  lemma AgeLoopStep(s: seq<BackupMetadata>, doomed: seq<bool>, v: nat, e: seq<BackupMetadata>,
                    p: Path<Folder>, locked: set<string>)
    requires |doomed| == |s| && v < |s|
    requires e == Kept(s[..v], doomed[..v]) + s[v..]
    ensures var i := |Kept(s[..v], doomed[..v])|;
      i < |e| && e[i] == s[v] &&
      (doomed[v] ==>
        e[..i] + e[i + 1..] == Kept(s[..v + 1], doomed[..v + 1]) + s[v + 1..] &&
        |Kept(s[..v + 1], doomed[..v + 1])| == i &&
        DeleteFrom(DeleteNames(p, NamesOf(Removed(s[..v], doomed[..v])), locked), s[v].backupFile, locked)
          == DeleteNames(p, NamesOf(Removed(s[..v + 1], doomed[..v + 1])), locked)) &&
      (!doomed[v] ==>
        e == Kept(s[..v + 1], doomed[..v + 1]) + s[v + 1..] &&
        |Kept(s[..v + 1], doomed[..v + 1])| == i + 1 &&
        Removed(s[..v + 1], doomed[..v + 1]) == Removed(s[..v], doomed[..v]))
  {
    var kept := Kept(s[..v], doomed[..v]);
    var removed := Removed(s[..v], doomed[..v]);
    var i := |kept|;
    PartitionStep(s, doomed, v);
    SliceCons(s, v);
    if doomed[v] {
      assert e[..i] == kept;
      assert e[i + 1..] == s[v + 1..];
      DeleteNamesStep(p, NamesOf(removed), s[v].backupFile, locked);
      NamesOfSnoc(removed, s[v]);
    } else {
      assert e == (kept + [s[v]]) + s[v + 1..];
    }
  }

  /** When the age loop runs off the end of the set, every element has
      been visited. */
  lemma AgeLoopDone(s: seq<BackupMetadata>, doomed: seq<bool>, v: nat, e: seq<BackupMetadata>)
    requires |doomed| == |s| && v <= |s|
    requires e == Kept(s[..v], doomed[..v]) + s[v..]
    requires |Kept(s[..v], doomed[..v])| >= |e|
    ensures v == |s| && s[..v] == s && doomed[..v] == doomed
    ensures e == Kept(s, doomed)
  {
    assert s[..v] == s;
    assert doomed[..v] == doomed;
    assert s[v..] == [];
    assert e == Kept(s, doomed) + [];
  }

  /** `checkOldBackups` as a function of the state it is given. */
  function AgePass(r: Retention, lifespanDays: int32, clock: nat -> long, locked: set<string>): Retention
  {
    if lifespanDays == DISABLED then r
    else
      var doomed := Verdicts(r.remaining, lifespanDays, clock);
      Retention(DeleteNames(r.dir, NamesOf(Removed(r.remaining, doomed)), locked), Kept(r.remaining, doomed))
  }

  /** With the pass switched on, a backup of the set is deleted (unless its
      deletion fails) exactly when its age in days exceeds the lifespan, and
      the set keeps exactly the others, in order. */
  lemma AgePassExact(r: Retention, lifespanDays: int32, clock: nat -> long, locked: set<string>)
    requires Ascending(r.remaining)
    ensures PassStep(r, AgePass(r, lifespanDays, clock, locked), locked)
    ensures lifespanDays != DISABLED ==> forall i :: 0 <= i < |r.remaining| ==>
      (r.remaining[i] in AgePass(r, lifespanDays, clock, locked).remaining <==>
        !Expired(r.remaining[i], clock(i), lifespanDays))
    ensures lifespanDays != DISABLED && r.dir.Directory? ==> forall i :: 0 <= i < |r.remaining| ==>
      var name := r.remaining[i].backupFile;
      name in r.dir.contents && Expired(r.remaining[i], clock(i), lifespanDays) && name !in locked ==>
        name !in AgePass(r, lifespanDays, clock, locked).dir.contents
    ensures lifespanDays != DISABLED && r.dir.Directory? ==> forall n :: n in r.dir.contents ==>
      (forall i :: 0 <= i < |r.remaining| && r.remaining[i].backupFile == n ==>
        !Expired(r.remaining[i], clock(i), lifespanDays)) ==>
      n in AgePass(r, lifespanDays, clock, locked).dir.contents
  {
    if lifespanDays != DISABLED {
      var s := r.remaining;
      var doomed := Verdicts(s, lifespanDays, clock);
      AscendingDistinct(s);
      forall i | 0 <= i < |s|
        ensures s[i] in Kept(s, doomed) <==> !doomed[i]
        ensures s[i] in Removed(s, doomed) <==> doomed[i]
      {
        PartitionAt(s, doomed, i);
      }
      KeptAscending(s, doomed);
      PartsOf(s, doomed);
      assert NamesOf(Removed(s, doomed)) <= NamesOf(s);
      forall x | x in Removed(s, doomed)
        ensures exists i :: 0 <= i < |s| && s[i] == x && doomed[i]
      {
        var i :| 0 <= i < |s| && s[i] == x;
      }
    }
  }

  /** How many backups the count pass deletes from a set of `n`: the loop
      runs while the set is larger than the limit and not exhausted. */
  function CountRemoved(n: nat, maxNumberBackups: int): (k: nat)
    ensures k <= n
    ensures maxNumberBackups == DISABLED ==> k == 0
    ensures maxNumberBackups != DISABLED ==> n - k <= maxNumberBackups || k == n
    ensures maxNumberBackups != DISABLED && k > 0 ==> n - (k - 1) > maxNumberBackups
    ensures maxNumberBackups >= 0 && n > maxNumberBackups ==> n - k == maxNumberBackups
  {
    if maxNumberBackups == DISABLED then 0
    else if maxNumberBackups < 0 then n
    else if n > maxNumberBackups then n - maxNumberBackups
    else 0
  }

  /** `checkNumberBackups` as a function of the state it is given. */
  function CountPass(r: Retention, maxNumberBackups: int32, locked: set<string>): Retention
  {
    if maxNumberBackups == DISABLED then r
    else
      var k := CountRemoved(|r.remaining|, maxNumberBackups);
      Retention(DeleteNames(r.dir, NamesOf(r.remaining[..k]), locked), r.remaining[k..])
  }

  /** The count pass deletes the oldest backups and keeps the newest: every
      deleted one is older than every kept one, and afterwards at most the
      limit remain, or none. Only -1 switches it off; 0 deletes them all. */
  lemma CountPassKeepsNewest(r: Retention, maxNumberBackups: int32, locked: set<string>)
    requires Ascending(r.remaining)
    ensures PassStep(r, CountPass(r, maxNumberBackups, locked), locked)
    ensures maxNumberBackups != DISABLED ==>
      var r' := CountPass(r, maxNumberBackups, locked);
      var k := |r.remaining| - |r'.remaining|;
      r'.remaining == r.remaining[k..] &&
      r'.dir == DeleteNames(r.dir, NamesOf(r.remaining[..k]), locked) &&
      (|r'.remaining| <= maxNumberBackups || r'.remaining == []) &&
      (forall i, j :: 0 <= i < k <= j < |r.remaining| ==>
        r.remaining[i].timestamp < r.remaining[j].timestamp)
    ensures maxNumberBackups == 0 ==> CountPass(r, maxNumberBackups, locked).remaining == []
  {
    if maxNumberBackups != DISABLED {
      DeletePrefixStep(r, CountRemoved(|r.remaining|, maxNumberBackups), locked);
    }
  }

  /** `maxFolderSize * FileUtils.ONE_MB`, an `int` times a `long`, which
      cannot overflow. */
  function SizeLimit(maxFolderSize: int32): (limit: long)
    ensures limit == maxFolderSize * ONE_MB
  {
    maxFolderSize as int * ONE_MB
  }

  /** How far the size pass gets, from position `j` of the set `s`: it
      stops at the first position where the folder is within the limit, or
      at the end of the set. */
  function SizeCut(p: Path<Folder>, s: seq<BackupMetadata>, limit: int,
                   getFolderSize: Path<Folder> -> int, locked: set<string>, j: nat): (k: nat)
    requires j <= |s|
    ensures j <= k <= |s|
    ensures k == |s| || getFolderSize(DeleteNames(p, NamesOf(s[..k]), locked)) <= limit
    ensures forall i :: j <= i < k ==> getFolderSize(DeleteNames(p, NamesOf(s[..i]), locked)) > limit
    decreases |s| - j
  {
    if j < |s| && getFolderSize(DeleteNames(p, NamesOf(s[..j]), locked)) > limit
    then SizeCut(p, s, limit, getFolderSize, locked, j + 1)
    else j
  }

  /** `checkBackupDirSize` as a function of the state it is given. */
  function SizePass(r: Retention, maxFolderSize: int32, getFolderSize: Path<Folder> -> int,
                    locked: set<string>): Retention
  {
    if maxFolderSize == DISABLED then r
    else
      var k := SizeCut(r.dir, r.remaining, SizeLimit(maxFolderSize), getFolderSize, locked, 0);
      Retention(DeleteNames(r.dir, NamesOf(r.remaining[..k]), locked), r.remaining[k..])
  }

  /** The size pass deletes oldest-first, each deletion made while the
      folder was over the limit, and stops once it is within the limit or
      the set is exhausted. */
  lemma SizePassOldestFirst(r: Retention, maxFolderSize: int32, getFolderSize: Path<Folder> -> int,
                            locked: set<string>)
    ensures PassStep(r, SizePass(r, maxFolderSize, getFolderSize, locked), locked)
    ensures maxFolderSize != DISABLED ==>
      var r' := SizePass(r, maxFolderSize, getFolderSize, locked);
      var k := |r.remaining| - |r'.remaining|;
      r'.remaining == r.remaining[k..] &&
      r'.dir == DeleteNames(r.dir, NamesOf(r.remaining[..k]), locked) &&
      (getFolderSize(r'.dir) <= SizeLimit(maxFolderSize) || r'.remaining == []) &&
      (forall i :: 0 <= i < k ==>
        getFolderSize(DeleteNames(r.dir, NamesOf(r.remaining[..i]), locked)) > SizeLimit(maxFolderSize))
  {
    if maxFolderSize != DISABLED {
      DeletePrefixStep(r, SizeCut(r.dir, r.remaining, SizeLimit(maxFolderSize), getFolderSize, locked, 0), locked);
    }
  }

  /** `BackupCleanup.run` as a function of the backup directory, the order
      of its listing, the configuration and the clock: scan, then the age,
      count and size passes, each on the set the previous one left. */
  function Cleaned(p: Path<Folder>, listing: seq<string>, cfg: Config, clock: nat -> long,
                   getFolderSize: Path<Folder> -> int, locked: set<string>): Retention
  {
    var scanned := Retention(p, Scan(p, listing));
    var aged := AgePass(scanned, cfg.lifespanDays, clock, locked);
    var counted := CountPass(aged, cfg.maxNumberBackups, locked);
    SizePass(counted, cfg.maxFolderSize, getFolderSize, locked)
  }

  /** Nothing else changes: cleanup deletes only files of the scanned set,
      never a locked one, and leaves every other file as it was. */
  lemma CleanupDeletesOnlyScanned(p: Path<Folder>, listing: seq<string>, cfg: Config, clock: nat -> long,
                                  getFolderSize: Path<Folder> -> int, locked: set<string>)
    requires IsZipListing(listing, p)
    ensures Shrinks(p, Cleaned(p, listing, cfg, clock, getFolderSize, locked).dir,
                    NamesOf(Scan(p, listing)), locked)
    ensures Ascending(Cleaned(p, listing, cfg, clock, getFolderSize, locked).remaining)
  {
    var scanned := Retention(p, Scan(p, listing));
    ScanSound(p, listing);
    var aged := AgePass(scanned, cfg.lifespanDays, clock, locked);
    AgePassExact(scanned, cfg.lifespanDays, clock, locked);
    var counted := CountPass(aged, cfg.maxNumberBackups, locked);
    CountPassKeepsNewest(aged, cfg.maxNumberBackups, locked);
    SizePassOldestFirst(counted, cfg.maxFolderSize, getFolderSize, locked);
    PassStepChain(scanned, aged, counted, locked);
    PassStepChain(scanned, counted, SizePass(counted, cfg.maxFolderSize, getFolderSize, locked), locked);
  }

  /** A directory that is missing or not a directory yields an empty set,
      and nothing is deleted. */
  lemma NoDirectoryNoDeletion(p: Path<Folder>, listing: seq<string>, cfg: Config, clock: nat -> long,
                              getFolderSize: Path<Folder> -> int, locked: set<string>)
    requires !p.Directory?
    ensures Scan(p, listing) == []
    ensures Cleaned(p, listing, cfg, clock, getFolderSize, locked).dir == p
  {
    assert forall k: nat :: k <= 0 ==> NamesOf([][..k]) == {};
  }

  /** With every limit at its default of -1, cleanup deletes nothing. */
  lemma DisabledLimitsDeleteNothing(p: Path<Folder>, listing: seq<string>, cfg: Config, clock: nat -> long,
                                    getFolderSize: Path<Folder> -> int, locked: set<string>)
    requires cfg.lifespanDays == Defaults.lifespanDays
    requires cfg.maxNumberBackups == Defaults.maxNumberBackups
    requires cfg.maxFolderSize == Defaults.maxFolderSize
    ensures Cleaned(p, listing, cfg, clock, getFolderSize, locked).dir == p
  {
  }

  /** A second backup whose timestamps all appeared in files listed before
      it is never deleted by cleanup, however far over its limits the
      directory is. */
  lemma TiedCopyNeverDeleted(p: Path<Folder>, listing: seq<string>, j: nat, cfg: Config, clock: nat -> long,
                             getFolderSize: Path<Folder> -> int, locked: set<string>)
    requires IsZipListing(listing, p) && p.Directory?
    requires j < |listing| && listing[j] in p.contents
    requires forall t :: t in RecordedTimestamps(p.contents[listing[j]]) ==>
      RecordedBy(p.contents, listing[..j], t)
    ensures var q := Cleaned(p, listing, cfg, clock, getFolderSize, locked).dir;
      q.Directory? && listing[j] in q.contents && q.contents[listing[j]] == p.contents[listing[j]]
  {
    TiedCopyNotScanned(p.contents, listing, j);
    CleanupDeletesOnlyScanned(p, listing, cfg, clock, getFolderSize, locked);
  }

  // ---------------------------------------------------------------------
  // The methods

  /** The entry loop of `scan` for the archive `name`. */
  method ScanArchive(backups: BackupSet, name: string, entries: seq<ZipEntry>)
    modifies backups
    ensures backups.elements == AddAll(old(backups.elements), name, WalkEntries(entries).found)
  {
    ghost var before := backups.elements;
    var j := 0;
    var threw := false;
    while j < |entries| && !threw
      invariant 0 <= j <= |entries|
      invariant threw == WalkEntries(entries[..j]).threw
      invariant backups.elements == AddAll(before, name, WalkEntries(entries[..j]).found)
    {
      var entry := entries[j];
      ghost var found := WalkEntries(entries[..j]).found;
      assert entries[..j + 1][..j] == entries[..j];
      if entry.name == DATA_FILE {
        match entry.content {
          case Record(t) =>
            assert (found + [t])[..|found|] == found;
            var _ := backups.Add(BackupMetadata(name, t));
          case NullRecord =>
          case Garbage =>
            threw := true;
        }
      }
      j := j + 1;
    }
    if threw {
      WalkStopsAtThrow(entries, j);
    } else {
      assert entries[..j] == entries;
    }
  }

  /** `scan`. */
  method ScanBackups(disk: Disk) returns (backups: BackupSet, ghost listing: seq<string>)
    ensures fresh(backups) && backups.Valid()
    ensures IsZipListing(listing, disk.backups)
    ensures backups.elements == Scan(disk.backups, listing)
  {
    backups := new BackupSet();
    listing := [];
    if !disk.backups.Directory? {
      return;
    }
    var files := disk.ListZipFiles();
    listing := files;
    var contents := disk.backups.contents;
    for k := 0 to |files|
      invariant backups.elements == ScanListing(contents, files[..k])
    {
      var name := files[k];
      assert files[..k + 1][..k] == files[..k];
      assert name in files;
      var file := contents[name];
      if file.archive.Some? {
        ScanArchive(backups, name, file.archive.value);
      }
    }
    assert files[..|files|] == files;
    ScanListingAscending(contents, files);
  }

  /** `checkOldBackups`. */
  method CheckOldBackups(backups: BackupSet, disk: Disk, lifespanDays: int32, clock: nat -> long)
    modifies backups, disk`backups
    ensures Retention(disk.backups, backups.elements)
      == AgePass(Retention(old(disk.backups), old(backups.elements)), lifespanDays, clock, disk.locked)
  {
    if lifespanDays == DISABLED {
      return;
    }
    ghost var s := backups.elements;
    ghost var p := disk.backups;
    ghost var doomed := Verdicts(s, lifespanDays, clock);
    DeleteNamesNone(p, disk.locked);
    assert s[..0] == [] && doomed[..0] == [] && NamesOf([]) == {};
    var i := 0;
    var visited := 0;
    while i < |backups.elements|
      invariant 0 <= visited <= |s|
      invariant backups.elements == Kept(s[..visited], doomed[..visited]) + s[visited..]
      invariant i == |Kept(s[..visited], doomed[..visited])|
      invariant disk.backups == DeleteNames(p, NamesOf(Removed(s[..visited], doomed[..visited])), disk.locked)
      decreases |s| - visited
    {
      AgeLoopStep(s, doomed, visited, backups.elements, p, disk.locked);
      var meta := backups.elements[i];
      var age := AgeDays(clock(visited), meta.timestamp);
      assert (age > lifespanDays as int) == doomed[visited];
      if age > lifespanDays as int {
        var _ := disk.Delete(meta.backupFile);
        backups.RemoveAt(i);
      } else {
        i := i + 1;
      }
      visited := visited + 1;
    }
    AgeLoopDone(s, doomed, visited, backups.elements);
  }

  /** `checkNumberBackups`. */
  method CheckNumberBackups(backups: BackupSet, disk: Disk, maxNumberBackups: int32)
    modifies backups, disk`backups
    ensures Retention(disk.backups, backups.elements)
      == CountPass(Retention(old(disk.backups), old(backups.elements)), maxNumberBackups, disk.locked)
  {
    if maxNumberBackups == DISABLED {
      return;
    }
    ghost var s := backups.elements;
    ghost var p := disk.backups;
    ghost var removed := 0;
    DeleteNamesNone(p, disk.locked);
    assert s[..0] == [] && NamesOf([]) == {};
    while |backups.elements| > maxNumberBackups as int && 0 < |backups.elements|
      invariant 0 <= removed <= |s|
      invariant backups.elements == s[removed..]
      invariant disk.backups == DeleteNames(p, NamesOf(s[..removed]), disk.locked)
      invariant removed > 0 ==> |s| - (removed - 1) > maxNumberBackups
      decreases |backups.elements|
    {
      var meta := backups.elements[0];
      assert s[..removed + 1] == s[..removed] + [meta];
      var _ := disk.Delete(meta.backupFile);
      DeleteNamesStep(p, NamesOf(s[..removed]), meta.backupFile, disk.locked);
      NamesOfSnoc(s[..removed], meta);
      backups.RemoveAt(0);
      assert s[removed..][1..] == s[removed + 1..];
      removed := removed + 1;
    }
    assert removed == CountRemoved(|s|, maxNumberBackups);
  }

  /** `checkBackupDirSize`; `getFolderSize` stands for
      `FileUtils.getFolderSize`, re-evaluated before every deletion. */
  method CheckBackupDirSize(backups: BackupSet, disk: Disk, maxFolderSize: int32,
                            getFolderSize: Path<Folder> -> int)
    modifies backups, disk`backups
    ensures Retention(disk.backups, backups.elements)
      == SizePass(Retention(old(disk.backups), old(backups.elements)), maxFolderSize, getFolderSize, disk.locked)
  {
    if maxFolderSize == DISABLED {
      return;
    }
    var limit := SizeLimit(maxFolderSize);
    ghost var s := backups.elements;
    ghost var p := disk.backups;
    ghost var removed := 0;
    DeleteNamesNone(p, disk.locked);
    assert s[..0] == [] && NamesOf([]) == {};
    while getFolderSize(disk.backups) > limit && 0 < |backups.elements|
      invariant 0 <= removed <= |s|
      invariant backups.elements == s[removed..]
      invariant disk.backups == DeleteNames(p, NamesOf(s[..removed]), disk.locked)
      invariant SizeCut(p, s, limit, getFolderSize, disk.locked, removed)
        == SizeCut(p, s, limit, getFolderSize, disk.locked, 0)
      decreases |backups.elements|
    {
      var meta := backups.elements[0];
      assert s[..removed + 1] == s[..removed] + [meta];
      var _ := disk.Delete(meta.backupFile);
      DeleteNamesStep(p, NamesOf(s[..removed]), meta.backupFile, disk.locked);
      NamesOfSnoc(s[..removed], meta);
      backups.RemoveAt(0);
      assert s[removed..][1..] == s[removed + 1..];
      removed := removed + 1;
    }
  }

  /** `BackupCleanup.run`: the passes in their fixed order on one set;
      `listing` is the order in which `listFiles` returned the candidates. */
  method Run(disk: Disk, cfg: Config, clock: nat -> long, getFolderSize: Path<Folder> -> int)
    returns (ghost listing: seq<string>)
    modifies disk`backups
    ensures IsZipListing(listing, old(disk.backups))
    ensures disk.backups == Cleaned(old(disk.backups), listing, cfg, clock, getFolderSize, disk.locked).dir
  {
    var backups;
    backups, listing := ScanBackups(disk);
    CheckOldBackups(backups, disk, cfg.lifespanDays, clock);
    CheckNumberBackups(backups, disk, cfg.maxNumberBackups);
    CheckBackupDirSize(backups, disk, cfg.maxFolderSize, getFolderSize);
  }
}
