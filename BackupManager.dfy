/** `BackupManager`: the checks on the configured backup directory, the
    name a new backup is given, who is told about backups, and the lock on
    world saving held while a backup is taken. */
module BackupManager {
  import opened Java
  import opened FileSystem
  import opened BackupConfig

  // ---------------------------------------------------------------------
  // The constructor

  /** The `RuntimeException`s the constructor throws. */
  datatype ManagerError = PathNotConfigured | PathIsAFile

  /** The constructor's checks on `BackupConfig.backupsPath`, given what the
      path denotes; `mkdirs()` creates a missing directory. */
  function CheckBackupPath(backupsPath: Option<string>, existing: Path<Folder>): (r: Result<Path<Folder>, ManagerError>)
    ensures r.Err? && r.error == PathNotConfigured <==> backupsPath.None? || backupsPath.value == ""
    ensures r.Err? && r.error == PathIsAFile <==>
      backupsPath.Some? && backupsPath.value != "" && existing.RegularFile?
    ensures r.Ok? ==> r.value.Directory?
    ensures r.Ok? && existing.Directory? ==> r.value == existing
    ensures r.Ok? && existing.Missing? ==> r.value == Directory(map[])
  {
    if backupsPath.None? || backupsPath.value == "" then Err(PathNotConfigured)
    else if existing.RegularFile? then Err(PathIsAFile)
    else if existing.Directory? then Ok(existing)
    else Ok(Directory(map[]))
  }

  /** The default path passes the checks unless a file is in its way. */
  lemma DefaultPathAccepted(existing: Path<Folder>)
    ensures CheckBackupPath(Defaults.backupsPath, existing).Ok? <==> !existing.RegularFile?
  {
  }

  // ---------------------------------------------------------------------
  // getBackupName

  /** `getBackupName()`, with the formatted date as a parameter. */
  function BackupName(date: string): (name: string)
    ensures EndsWith(name, ZIP_SUFFIX)
    ensures |name| == |date| + |ZIP_SUFFIX| && name[..|date|] == date
  {
    date + ZIP_SUFFIX
  }

  /** Distinct dates give distinct names, no name is the temporary one, and
      each is a cleanup candidate once it is in the backup directory. */
  lemma BackupNameIsCandidate(date: string, date': string, listing: seq<string>, p: Path<Folder>)
    requires IsZipListing(listing, p) && p.Directory? && BackupName(date) in p.contents
    ensures BackupName(date) != TMP
    ensures BackupName(date) in listing
    ensures date != date' ==> BackupName(date) != BackupName(date')
  {
    var name, name' := BackupName(date), BackupName(date');
    if |date| == |date'| && name == name' {
      assert date == name[..|date|] == name'[..|date'|] == date';
    }
    assert |TMP| < |ZIP_SUFFIX| + 1;
  }

  // ---------------------------------------------------------------------
  // sendMessage

  /** The part of a player that the recipient rule looks at. */
  datatype Player = Player(name: string, isOp: bool)

  /** The recipient rule, as one condition. */
  predicate Receives(cfg: Config, p: Player)
  {
    (cfg.sendBackupMessageToOps && p.isOp) || cfg.sendBackupMessageToUsers ||
    p.name in cfg.backupMessageWhitelist
  }

  /** The players who are sent the message, in the order of the player
      list. */
  function Recipients(cfg: Config, players: seq<Player>): seq<Player>
  {
    if players == [] then []
    else
      Recipients(cfg, players[..|players| - 1]) +
      (if Receives(cfg, players[|players| - 1]) then [players[|players| - 1]] else [])
  }

  /** Each listed player is sent the message as often as they are listed
      when the rule admits them, and never otherwise; nobody else is sent
      it. */
  lemma {:induction false} RecipientsExact(cfg: Config, players: seq<Player>, p: Player)
    ensures multiset(Recipients(cfg, players))[p] == if Receives(cfg, p) then multiset(players)[p] else 0
  {
    if players != [] {
      var init := players[..|players| - 1];
      var last := players[|players| - 1];
      RecipientsExact(cfg, init, p);
      assert players == init + [last];
    }
  }

  /** `sendMessage`: `delivered` lists the players sent the message, one
      entry per `addChatComponentMessage` call. */
  method SendMessage(cfg: Config, players: seq<Player>) returns (delivered: seq<Player>)
    ensures delivered == Recipients(cfg, players)
  {
    delivered := [];
    for i := 0 to |players|
      invariant delivered == Recipients(cfg, players[..i])
    {
      var player := players[i];
      assert players[..i + 1][..i] == players[..i];
      if cfg.sendBackupMessageToOps && player.isOp {
        delivered := delivered + [player];
      } else if cfg.sendBackupMessageToUsers {
        delivered := delivered + [player];
      } else if player.name in cfg.backupMessageWhitelist {
        delivered := delivered + [player];
      }
    }
    assert players[..|players|] == players;
  }

  // ---------------------------------------------------------------------
  // lockSaving / unlockSaving

  /** The part of a `WorldServer` the lock touches. */
  datatype World = World(dimensionId: int, disableLevelSaving: bool)

  /** Every world with saving disabled. */
  function AllDisabled(ws: seq<World>): (r: seq<World>)
    ensures |r| == |ws|
    ensures forall i :: 0 <= i < |ws| ==> r[i] == ws[i].(disableLevelSaving := true)
  {
    seq(|ws|, i requires 0 <= i < |ws| => ws[i].(disableLevelSaving := true))
  }

  /** The cache after `put` for every world in turn: a later world with the
      same dimension id overwrites an earlier one. */
  function Cached(cache: map<int, bool>, ws: seq<World>): map<int, bool>
  {
    if ws == [] then cache
    else Cached(cache, ws[..|ws| - 1])[ws[|ws| - 1].dimensionId := ws[|ws| - 1].disableLevelSaving]
  }

  /** Every world whose dimension id has a cache entry gets the cached
      flag back; the others are left as they are. */
  function Restored(ws: seq<World>, cache: map<int, bool>): (r: seq<World>)
    ensures |r| == |ws|
    ensures forall i :: 0 <= i < |ws| ==>
      r[i] == if ws[i].dimensionId in cache then ws[i].(disableLevelSaving := cache[ws[i].dimensionId]) else ws[i]
  {
    seq(|ws|, i requires 0 <= i < |ws| =>
      if ws[i].dimensionId in cache then ws[i].(disableLevelSaving := cache[ws[i].dimensionId]) else ws[i])
  }

  /** No two worlds share a dimension id. */
  ghost predicate DistinctIds(ws: seq<World>)
  {
    forall i, j :: 0 <= i < j < |ws| ==> ws[i].dimensionId != ws[j].dimensionId
  }

  /** The lock caches a flag under every world's dimension id and keeps the
      entries it had for other ids. */
  lemma {:induction false} CachedKeys(cache: map<int, bool>, ws: seq<World>)
    ensures forall i :: 0 <= i < |ws| ==> ws[i].dimensionId in Cached(cache, ws)
    ensures forall d :: d in Cached(cache, ws) <==> d in cache || exists i :: 0 <= i < |ws| && ws[i].dimensionId == d
    ensures forall d :: d in cache && (forall i :: 0 <= i < |ws| ==> ws[i].dimensionId != d) ==>
      Cached(cache, ws)[d] == cache[d]
  {
    if ws != [] {
      var init := ws[..|ws| - 1];
      CachedKeys(cache, init);
      assert forall i :: 0 <= i < |init| ==> init[i] == ws[i];
      forall d | d in Cached(cache, ws)
        ensures d in cache || exists i :: 0 <= i < |ws| && ws[i].dimensionId == d
      {
        if d != ws[|ws| - 1].dimensionId && d !in cache {
          var i :| 0 <= i < |init| && init[i].dimensionId == d;
          assert ws[i].dimensionId == d;
        }
      }
    }
  }

  /** With distinct dimension ids, each world's own flag is what the lock
      caches for it. */
  lemma {:induction false} CachedValue(cache: map<int, bool>, ws: seq<World>, i: nat)
    requires DistinctIds(ws) && i < |ws|
    ensures ws[i].dimensionId in Cached(cache, ws)
    ensures Cached(cache, ws)[ws[i].dimensionId] == ws[i].disableLevelSaving
  {
    var n := |ws| - 1;
    if i < n {
      var init := ws[..n];
      assert init[i] == ws[i];
      assert ws[i].dimensionId != ws[n].dimensionId;
      CachedValue(cache, init, i);
    }
  }

  /** When every world is disabled before the lock, every cached entry for
      a world is `true`. */
  lemma {:induction false} CachedAllTrue(cache: map<int, bool>, ws: seq<World>, d: int)
    requires forall i :: 0 <= i < |ws| ==> ws[i].disableLevelSaving
    requires exists i :: 0 <= i < |ws| && ws[i].dimensionId == d
    ensures d in Cached(cache, ws) && Cached(cache, ws)[d]
  {
    var n := |ws| - 1;
    if ws[n].dimensionId != d {
      var i :| 0 <= i < |ws| && ws[i].dimensionId == d;
      assert ws[..n][i] == ws[i];
      CachedAllTrue(cache, ws[..n], d);
    }
  }

  /** One lock followed by one unlock restores every world's original flag,
      provided no two worlds share a dimension id. */
  lemma LockThenUnlockRestores(cache: map<int, bool>, ws: seq<World>)
    requires DistinctIds(ws)
    ensures Restored(AllDisabled(ws), Cached(cache, ws)) == ws
  {
    var r := Restored(AllDisabled(ws), Cached(cache, ws));
    forall i | 0 <= i < |ws|
      ensures r[i] == ws[i]
    {
      CachedValue(cache, ws, i);
    }
  }

  /** Locking twice before unlocking caches `true` for every world, so the
      unlock leaves saving disabled everywhere. */
  lemma DoubleLockLeavesSavingDisabled(cache: map<int, bool>, ws: seq<World>)
    ensures var once := AllDisabled(ws);
      Restored(AllDisabled(once), Cached(Cached(cache, ws), once)) == once
  {
    var once := AllDisabled(ws);
    var c := Cached(Cached(cache, ws), once);
    var r := Restored(AllDisabled(once), c);
    forall i | 0 <= i < |ws|
      ensures r[i] == once[i]
    {
      CachedAllTrue(Cached(cache, ws), once, once[i].dimensionId);
    }
  }

  /** The unlock does not clear the cache, so a second unlock changes
      nothing. */
  lemma UnlockTwiceIsUnlockOnce(ws: seq<World>, cache: map<int, bool>)
    ensures Restored(Restored(ws, cache), cache) == Restored(ws, cache)
  {
  }

  /** The server's worlds, and the static `worldSavingCache`, which
      outlives every backup. */
  class Server {
    var worlds: seq<World>
    var worldSavingCache: map<int, bool>

    constructor (worlds: seq<World>)
      ensures this.worlds == worlds && worldSavingCache == map[]
    {
      this.worlds := worlds;
      worldSavingCache := map[];
    }

    /** `lockSaving`. */
    method LockSaving()
      modifies this
      ensures worlds == AllDisabled(old(worlds))
      ensures worldSavingCache == Cached(old(worldSavingCache), old(worlds))
    {
      ghost var ws := worlds;
      ghost var cache := worldSavingCache;
      var i := 0;
      while i < |worlds|
        invariant 0 <= i <= |ws| && |worlds| == |ws|
        invariant forall j :: 0 <= j < |ws| ==> worlds[j] == if j < i then ws[j].(disableLevelSaving := true) else ws[j]
        invariant worldSavingCache == Cached(cache, ws[..i])
      {
        var world := worlds[i];
        assert ws[..i + 1][..i] == ws[..i];
        worldSavingCache := worldSavingCache[world.dimensionId := world.disableLevelSaving];
        worlds := worlds[i := world.(disableLevelSaving := true)];
        i := i + 1;
      }
      assert ws[..i] == ws;
    }

    /** `unlockSaving`. */
    method UnlockSaving()
      modifies this`worlds
      ensures worlds == Restored(old(worlds), worldSavingCache)
    {
      ghost var ws := worlds;
      var i := 0;
      while i < |worlds|
        invariant 0 <= i <= |ws| && |worlds| == |ws|
        invariant forall j :: 0 <= j < |ws| ==> worlds[j] == if j < i then Restored(ws, worldSavingCache)[j] else ws[j]
      {
        var world := worlds[i];
        if world.dimensionId in worldSavingCache {
          worlds := worlds[i := world.(disableLevelSaving := worldSavingCache[world.dimensionId])];
        }
        i := i + 1;
      }
    }
  }
}
