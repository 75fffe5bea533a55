/** The configuration values the backup code reads from the static fields
    of `BackupConfig`, gathered into one immutable value. */
module BackupConfig {
  import opened Java

  /** The value that switches a retention pass off. */
  const DISABLED: int32 := -1

  datatype Config = Config(
    backupsPath: Option<string>,
    lifespanDays: int32,
    maxFolderSize: int32,
    maxNumberBackups: int32,
    fileBlacklist: set<string>,
    directoryBlackList: set<string>,
    sendBackupMessageToOps: bool,
    sendBackupMessageToUsers: bool,
    backupMessageWhitelist: set<string>,
    enableAutoBackup: bool,
    autoBackupInterval: int32)

  /** The field initialisers, before any configuration file is read. */
  const Defaults: Config := Config(
    Some("backup"), DISABLED, DISABLED, DISABLED, {}, {}, true, true, {}, false, 1440)

  /** Out of the box every retention pass is switched off. */
  lemma DefaultsDisableRetention()
    ensures Defaults.lifespanDays == DISABLED
    ensures Defaults.maxFolderSize == DISABLED
    ensures Defaults.maxNumberBackups == DISABLED
    ensures Defaults.autoBackupInterval == 1440
  {
  }
}
