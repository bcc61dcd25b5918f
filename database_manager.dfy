/**
 * The tables of the calculator's database, held in memory: history rows with an
 * auto-increment id, settings and memory slots keyed by name, and the applied migration
 * versions. `db` being null (before `initialize`, after `close`) is the flag `open`; every
 * operation checks it first. The file the database is saved to, and the backups of it, are not
 * part of this model, except the rule that picks which backups to delete.
 */
module Database {
  import opened Wrappers
  import opened Text
  import opened Ordering
  import opened Types

  // ---------------------------------------------------------------------------------------------
  // Settings defaults
  // ---------------------------------------------------------------------------------------------

  /** The settings written when missing, in the order they are inserted. */
  const Defaults: seq<(string, string)> :=
    [("theme", "system"), ("scatteredKeypad", "false"), ("calculationMode", "standard")]

  /** `INSERT OR IGNORE` of each pair in turn: a key already present keeps its value. */
  function InsertOrIgnoreAll(settings: map<string, string>, pairs: seq<(string, string)>): (r: map<string, string>)
  {
    if pairs == [] then settings
    else
      var last := pairs[|pairs| - 1];
      var before := InsertOrIgnoreAll(settings, pairs[..|pairs| - 1]);
      if last.0 in before then before else before[last.0 := last.1]
  }

  /**
   * Inserting the defaults never overwrites a present value, and afterwards each default key is
   * present, with its default value exactly when it was missing before.
   */
  lemma {:induction false} InsertOrIgnoreKeeps(settings: map<string, string>, pairs: seq<(string, string)>)
    ensures var r := InsertOrIgnoreAll(settings, pairs);
      && (forall k :: k in settings ==> k in r && r[k] == settings[k])
      && (forall k :: k in r <==> k in settings || exists i :: 0 <= i < |pairs| && pairs[i].0 == k)
      && (forall i :: (0 <= i < |pairs| && pairs[i].0 !in settings &&
                       forall j :: 0 <= j < i ==> pairs[j].0 != pairs[i].0) ==> r[pairs[i].0] == pairs[i].1)
  {
    if pairs != [] {
      var init := pairs[..|pairs| - 1];
      InsertOrIgnoreKeeps(settings, init);
      assert forall i :: 0 <= i < |init| ==> init[i] == pairs[i];
    }
  }

  /** Running the defaults twice gives what running them once gives. */
  lemma {:induction false} InsertOrIgnoreIdempotent(settings: map<string, string>, pairs: seq<(string, string)>)
    ensures InsertOrIgnoreAll(InsertOrIgnoreAll(settings, pairs), pairs) == InsertOrIgnoreAll(settings, pairs)
  {
    var once := InsertOrIgnoreAll(settings, pairs);
    InsertOrIgnoreKeeps(settings, pairs);
    InsertOrIgnorePresent(once, pairs);
  }

  /** When every key is present already, inserting or ignoring changes nothing. */
  lemma {:induction false} InsertOrIgnorePresent(settings: map<string, string>, pairs: seq<(string, string)>)
    requires forall i :: 0 <= i < |pairs| ==> pairs[i].0 in settings
    ensures InsertOrIgnoreAll(settings, pairs) == settings
  {
    if pairs != [] {
      var init := pairs[..|pairs| - 1];
      assert forall i :: 0 <= i < |init| ==> init[i] == pairs[i];
      InsertOrIgnorePresent(settings, init);
    }
  }

  // ---------------------------------------------------------------------------------------------
  // Migrations
  // ---------------------------------------------------------------------------------------------

  /** The version this code migrates to. */
  const TargetVersion := 1

  /** `SELECT MAX(version)`: null on an empty table. */
  function MaxVersion(versions: seq<int>): (r: Option<int>)
    ensures r.None? <==> versions == []
    ensures r.Some? ==> r.value in versions && forall v :: v in versions ==> v <= r.value
  {
    if versions == [] then None
    else
      var rest := MaxVersion(versions[1..]);
      assert versions == [versions[0]] + versions[1..];
      if rest.Some? && rest.value > versions[0] then rest else Some(versions[0])
  }

  /** `result[0]?.values[0]?.[0] as number || 0`: the maximum, with null read as 0. */
  function CurrentVersion(versions: seq<int>): int
  {
    match MaxVersion(versions)
    case None => 0
    case Some(v) => v
  }

  /** The versions `runMigrations` leaves: version 1 recorded when the current version is below it. */
  function Migrated(versions: seq<int>): seq<int>
  {
    if CurrentVersion(versions) < TargetVersion && TargetVersion !in versions then versions + [TargetVersion]
    else versions
  }

  /**
   * After migrating, the current version is at least the target and nothing recorded is lost;
   * migrating again changes nothing.
   */
  lemma {:induction false} MigratedProperties(versions: seq<int>)
    ensures CurrentVersion(Migrated(versions)) >= TargetVersion
    ensures forall v :: v in versions ==> v in Migrated(versions)
    ensures CurrentVersion(versions) >= TargetVersion ==> Migrated(versions) == versions
    ensures Migrated(Migrated(versions)) == Migrated(versions)
  {
    var m := Migrated(versions);
    if CurrentVersion(versions) < TargetVersion {
      assert TargetVersion !in versions by {
        if versions != [] {
          assert MaxVersion(versions).Some?;
        }
      }
      assert m[|versions|] == TargetVersion;
      assert TargetVersion in m;
      assert MaxVersion(m).Some? && MaxVersion(m).value >= TargetVersion;
    }
  }

  // ---------------------------------------------------------------------------------------------
  // History rows
  // ---------------------------------------------------------------------------------------------

  function Timestamp(e: HistoryEntry): int { e.timestamp }

  /** `SELECT * FROM history ORDER BY timestamp DESC LIMIT ? OFFSET ?`. */
  function HistoryPage(rows: seq<HistoryEntry>, limit: nat, offset: nat): (r: seq<HistoryEntry>)
    ensures |r| <= limit
    ensures SortedDesc(r, Timestamp)
    ensures forall e :: e in r ==> e in rows
  {
    var sorted := SortDesc(rows, Timestamp);
    PageOfSorted(sorted, Timestamp, limit, offset);
    assert forall e :: e in sorted ==> e in multiset(rows);
    Page(sorted, limit, offset)
  }

  /** `is_pinned = CASE WHEN is_pinned = 1 THEN 0 ELSE 1 END` on the rows with the id. */
  function TogglePinned(rows: seq<HistoryEntry>, id: int): (r: seq<HistoryEntry>)
    ensures |r| == |rows|
    ensures forall i :: 0 <= i < |rows| ==>
      if rows[i].id == Some(id) then r[i] == rows[i].(isPinned := if rows[i].isPinned == 1 then 0 else 1)
      else r[i] == rows[i]
  {
    seq(|rows|, i requires 0 <= i < |rows| =>
      if rows[i].id == Some(id) then rows[i].(isPinned := if rows[i].isPinned == 1 then 0 else 1) else rows[i])
  }

  /** Two toggles restore every row whose flag is 0 or 1, and a toggled flag is always 0 or 1. */
  lemma {:induction false} TogglePinTwice(rows: seq<HistoryEntry>, id: int)
    requires forall i :: 0 <= i < |rows| ==> rows[i].isPinned in {0, 1}
    ensures TogglePinned(TogglePinned(rows, id), id) == rows
    ensures forall i :: 0 <= i < |rows| ==> TogglePinned(rows, id)[i].isPinned in {0, 1}
  {
  }

  /** `DELETE FROM history WHERE id = ?`: every row with the id removed, the others kept in order. */
  function DeleteRows(rows: seq<HistoryEntry>, id: int): (r: seq<HistoryEntry>)
    ensures forall e :: e in r <==> e in rows && e.id != Some(id)
    ensures |r| <= |rows|
  {
    if rows == [] then []
    else if rows[0].id == Some(id) then DeleteRows(rows[1..], id)
    else [rows[0]] + DeleteRows(rows[1..], id)
  }

  // ---------------------------------------------------------------------------------------------
  // Backup retention
  // ---------------------------------------------------------------------------------------------

  /** A file in the backup directory: its name and modification time. */
  datatype BackupFile = BackupFile(name: string, mtime: int)

  function MTime(f: BackupFile): int { f.mtime }

  /** `f.startsWith('calculator-') && f.endsWith('.db')`. */
  predicate IsBackupName(name: string)
  {
    StartsWith(name, "calculator-") && EndsWith(name, ".db")
  }

  /** The backup files in directory order. */
  function Backups(files: seq<BackupFile>): (r: seq<BackupFile>)
    ensures forall f :: f in r <==> f in files && IsBackupName(f.name)
    ensures |r| <= |files|
  {
    if files == [] then []
    else if IsBackupName(files[0].name) then [files[0]] + Backups(files[1..])
    else Backups(files[1..])
  }

  /** The number of backups kept. */
  const KeptBackups := 7

  /** `files.slice(7)` after sorting the backups newest first: the ones to delete. */
  function BackupsToDelete(files: seq<BackupFile>): seq<BackupFile>
  {
    var sorted := SortDesc(Backups(files), MTime);
    if |sorted| <= KeptBackups then [] else sorted[KeptBackups..]
  }

  /**
   * Only backup files are deleted, all but the seven newest of them, and no kept backup is older
   * than a deleted one.
   */
  lemma {:induction false} BackupRetention(files: seq<BackupFile>)
    ensures forall f :: f in BackupsToDelete(files) ==> f in files && IsBackupName(f.name)
    ensures |BackupsToDelete(files)| == if |Backups(files)| <= KeptBackups then 0 else |Backups(files)| - KeptBackups
    ensures var sorted := SortDesc(Backups(files), MTime);
      forall i, j :: 0 <= i < KeptBackups <= j < |sorted| ==> sorted[i].mtime >= sorted[j].mtime
    ensures var sorted := SortDesc(Backups(files), MTime);
      |sorted| > KeptBackups ==> BackupsToDelete(files) == sorted[KeptBackups..]
  {
    var b := Backups(files);
    var sorted := SortDesc(b, MTime);
    forall f | f in BackupsToDelete(files) ensures f in files && IsBackupName(f.name) {
      assert f in sorted;
      assert f in multiset(b);
    }
  }

  // ---------------------------------------------------------------------------------------------
  // The manager
  // ---------------------------------------------------------------------------------------------

  /** The error `addHistory` throws without a database. */
  const NotInitialized := "Database not initialized"

  class DatabaseManager {
    /** `db !== null`. */
    var open: bool
    var history: seq<HistoryEntry>
    /** The largest id ever handed out (SQLite's `sqlite_sequence` for `AUTOINCREMENT`). */
    var lastId: nat
    var settings: map<string, string>
    var memory: map<string, string>
    var migrations: seq<int>

    /** Every stored row has an id, no larger than the last one handed out, and ids are unique. */
    ghost predicate Valid()
      reads this
    {
      && (forall i :: 0 <= i < |history| ==> history[i].id.Some? && 1 <= history[i].id.value <= lastId)
      && DistinctIds(history)
    }

    /** A manager before `initialize`: no database yet, empty tables. */
    constructor ()
      ensures Valid() && !open
      ensures history == [] && settings == map[] && memory == map[] && migrations == [] && lastId == 0
    {
      open := false;
      history := [];
      lastId := 0;
      settings := map[];
      memory := map[];
      migrations := [];
    }

    /**
     * `initialize` once the file is read: the database is open, the default settings are
     * inserted if missing, and the migrations are run. The tables are those saved last.
     */
    method Initialize()
      requires Valid()
      modifies this
      ensures Valid() && open
      ensures history == old(history) && memory == old(memory) && lastId == old(lastId)
      ensures settings == InsertOrIgnoreAll(old(settings), Defaults)
      ensures migrations == Migrated(old(migrations))
    {
      open := true;
      InitializeDefaultSettings();
      RunMigrations();
    }

    /** `initializeDefaultSettings`. */
    method InitializeDefaultSettings()
      modifies this
      ensures settings == if old(open) then InsertOrIgnoreAll(old(settings), Defaults) else old(settings)
      ensures open == old(open) && history == old(history) && lastId == old(lastId)
      ensures memory == old(memory) && migrations == old(migrations)
    {
      if !open {
        return;
      }
      for i := 0 to |Defaults|
        invariant settings == InsertOrIgnoreAll(old(settings), Defaults[..i])
        invariant open == old(open) && history == old(history) && lastId == old(lastId)
        invariant memory == old(memory) && migrations == old(migrations)
      {
        assert Defaults[..i + 1][..i] == Defaults[..i];
        var setting := Defaults[i];
        if setting.0 !in settings {
          settings := settings[setting.0 := setting.1];
        }
      }
      assert Defaults[..|Defaults|] == Defaults;
    }

    /** `runMigrations`. */
    method RunMigrations()
      modifies this
      ensures migrations == if old(open) then Migrated(old(migrations)) else old(migrations)
      ensures open == old(open) && history == old(history) && lastId == old(lastId)
      ensures memory == old(memory) && settings == old(settings)
    {
      if !open {
        return;
      }
      var currentVersion := CurrentVersion(migrations);
      if currentVersion < TargetVersion {
        if TargetVersion !in migrations {
          migrations := migrations + [TargetVersion];
        }
      }
    }

    /**
     * `addHistory`: throws without a database; otherwise appends the row with a fresh id larger
     * than every id handed out before, `is_pinned` 0 when the flag is 0, and returns the id.
     */
    method AddHistory(entry: HistoryEntry) returns (c: Completion<int>)
      requires Valid()
      modifies this
      ensures Valid()
      ensures !old(open) ==> c == Thrown(ErrorObject(NotInitialized)) && history == old(history) && lastId == old(lastId)
      ensures old(open) ==> c == Normal(old(lastId) + 1) && lastId == old(lastId) + 1
      ensures old(open) ==> history == old(history) + [entry.(id := Some(lastId))]
      ensures old(open) ==> forall i :: 0 <= i < |old(history)| ==> old(history)[i].id.value < c.value
      ensures open == old(open) && settings == old(settings) && memory == old(memory) && migrations == old(migrations)
    {
      if !open {
        return Thrown(ErrorObject(NotInitialized));
      }
      lastId := lastId + 1;
      history := history + [entry.(id := Some(lastId))];
      c := Normal(lastId);
    }

    /** `getHistory`: `[]` without a database. */
    method GetHistory(limit: nat, offset: nat) returns (r: seq<HistoryEntry>)
      ensures r == if open then HistoryPage(history, limit, offset) else []
    {
      if !open {
        return [];
      }
      r := HistoryPage(history, limit, offset);
    }

    /** `togglePin`: flips the flag of the row with the id; nothing without a database. */
    method TogglePin(id: int)
      requires Valid()
      modifies this
      ensures Valid()
      ensures history == if old(open) then TogglePinned(old(history), id) else old(history)
      ensures open == old(open) && lastId == old(lastId) && settings == old(settings)
      ensures memory == old(memory) && migrations == old(migrations)
    {
      if !open {
        return;
      }
      history := TogglePinned(history, id);
    }

    /** `deleteHistory`. */
    method DeleteHistory(id: int)
      requires Valid()
      modifies this
      ensures Valid()
      ensures history == if old(open) then DeleteRows(old(history), id) else old(history)
      ensures open == old(open) && lastId == old(lastId) && settings == old(settings)
      ensures memory == old(memory) && migrations == old(migrations)
    {
      if !open {
        return;
      }
      DeleteKeepsIds(history, id);
      history := DeleteRows(history, id);
    }

    /** `clearAllHistory`: the ids handed out are not reused. */
    method ClearAllHistory()
      requires Valid()
      modifies this
      ensures Valid()
      ensures history == if old(open) then [] else old(history)
      ensures open == old(open) && lastId == old(lastId) && settings == old(settings)
      ensures memory == old(memory) && migrations == old(migrations)
    {
      if !open {
        return;
      }
      history := [];
    }

    /** `getSetting`: null without a database or for a missing key. */
    method GetSetting(key: string) returns (r: Option<string>)
      ensures r == if open && key in settings then Some(settings[key]) else None
    {
      if !open || key !in settings {
        return None;
      }
      r := Some(settings[key]);
    }

    /** `setSetting`: `INSERT OR REPLACE`. */
    method SetSetting(key: string, value: string)
      modifies this
      ensures settings == if old(open) then old(settings)[key := value] else old(settings)
      ensures open == old(open) && history == old(history) && lastId == old(lastId)
      ensures memory == old(memory) && migrations == old(migrations)
    {
      if !open {
        return;
      }
      settings := settings[key := value];
    }

    /** `getAllSettings`: `{}` without a database. */
    method GetAllSettings() returns (r: map<string, string>)
      ensures r == if open then settings else map[]
    {
      if !open {
        return map[];
      }
      r := settings;
    }

    /** `setMemory`: `INSERT OR REPLACE`. */
    method SetMemory(slot: string, value: string)
      modifies this
      ensures memory == if old(open) then old(memory)[slot := value] else old(memory)
      ensures open == old(open) && history == old(history) && lastId == old(lastId)
      ensures settings == old(settings) && migrations == old(migrations)
    {
      if !open {
        return;
      }
      memory := memory[slot := value];
    }

    /** `getMemory`: null without a database or for a missing slot. */
    method GetMemory(slot: string) returns (r: Option<string>)
      ensures r == if open && slot in memory then Some(memory[slot]) else None
    {
      if !open || slot !in memory {
        return None;
      }
      r := Some(memory[slot]);
    }

    /** `clearMemory`: the slot's row deleted. */
    method ClearMemory(slot: string)
      modifies this
      ensures memory == if old(open) then old(memory) - {slot} else old(memory)
      ensures open == old(open) && history == old(history) && lastId == old(lastId)
      ensures settings == old(settings) && migrations == old(migrations)
    {
      if !open {
        return;
      }
      memory := memory - {slot};
    }

    /** `getAllMemory`: one row per slot; `[]` without a database. */
    method GetAllMemory() returns (r: seq<MemorySlot>)
      ensures !open ==> r == []
      ensures open ==> |r| == |memory.Keys|
      ensures open ==> forall m :: m in r <==> m.slotName in memory && memory[m.slotName] == m.value
    {
      if !open {
        return [];
      }
      r := [];
      var todo := memory.Keys;
      while todo != {}
        invariant todo <= memory.Keys
        invariant |r| + |todo| == |memory.Keys|
        invariant forall m :: m in r <==> m.slotName in memory.Keys - todo && memory[m.slotName] == m.value
        decreases |todo|
      {
        var k :| k in todo;
        r := r + [MemorySlot(k, memory[k])];
        todo := todo - {k};
      }
    }

    /** `close`: the database is saved and dropped; later calls see no database. */
    method Close()
      modifies this
      ensures !open
      ensures history == old(history) && lastId == old(lastId) && settings == old(settings)
      ensures memory == old(memory) && migrations == old(migrations)
    {
      if open {
        open := false;
      }
    }

    /** `cleanOldBackups` over a directory listing: returns the names it unlinks, in order. */
    method CleanOldBackups(files: seq<BackupFile>) returns (deleted: seq<string>)
      ensures |deleted| == |BackupsToDelete(files)|
      ensures forall i :: 0 <= i < |deleted| ==> deleted[i] == BackupsToDelete(files)[i].name
    {
      var sorted := SortDesc(Backups(files), MTime);
      deleted := [];
      if |sorted| <= KeptBackups {
        return;
      }
      var expired := sorted[KeptBackups..];
      for i := 0 to |expired|
        invariant |deleted| == i
        invariant forall j :: 0 <= j < i ==> deleted[j] == expired[j].name
      {
        deleted := deleted + [expired[i].name];
      }
    }
  }

  /** No two rows share an id. */
  predicate DistinctIds(rows: seq<HistoryEntry>)
  {
    forall i, j :: 0 <= i < j < |rows| ==> rows[i].id != rows[j].id
  }

  /** Deleting rows keeps the remaining ids distinct. */
  lemma {:induction false} DeleteKeepsIds(rows: seq<HistoryEntry>, id: int)
    requires DistinctIds(rows)
    ensures DistinctIds(DeleteRows(rows, id))
  {
    if rows != [] {
      DistinctIdsTail(rows);
      DeleteKeepsIds(rows[1..], id);
      if rows[0].id != Some(id) {
        var rest := DeleteRows(rows[1..], id);
        forall j | 0 <= j < |rest| ensures rest[j].id != rows[0].id {
          assert rest[j] in rows[1..];
          var k :| 0 <= k < |rows[1..]| && rows[1..][k] == rest[j];
          assert rows[k + 1] == rest[j];
        }
        DistinctIdsCons(rows[0], rest);
      }
    }
  }

  lemma {:induction false} DistinctIdsTail(rows: seq<HistoryEntry>)
    requires rows != [] && DistinctIds(rows)
    ensures DistinctIds(rows[1..])
  {
    forall i, j | 0 <= i < j < |rows[1..]| ensures rows[1..][i].id != rows[1..][j].id {
      assert rows[1..][i] == rows[i + 1] && rows[1..][j] == rows[j + 1];
    }
  }

  lemma {:induction false} DistinctIdsCons(e: HistoryEntry, rows: seq<HistoryEntry>)
    requires DistinctIds(rows)
    requires forall j :: 0 <= j < |rows| ==> rows[j].id != e.id
    ensures DistinctIds([e] + rows)
  {
    var r := [e] + rows;
    forall i, j | 0 <= i < j < |r| ensures r[i].id != r[j].id {
      assert r[j] == rows[j - 1];
      if i > 0 {
        assert r[i] == rows[i - 1];
      }
    }
  }
}
