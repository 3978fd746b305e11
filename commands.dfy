/**
 * The `/xb` commands the restore path depends on: the `--chunk` filter that picks
 * region (".mca") and chunk (".mcc") files by the block columns two corners span,
 * the paging of `/xb list`, and the two `doRestore` sequences (the single-version
 * build, with a server-stop hook, and the multi-version one, restoring in place).
 */
module Commands {
  import opened Wrappers
  import opened Paths
  import opened Decimal
  import opened Store
  import opened Trace
  import opened Coordinator
  import opened XBackup
  import CommonCatalog
  import CoreService

  /** A `ColumnPos` argument: block column coordinates. */
  datatype ColumnPos = ColumnPos(x: int, z: int)

  /** Region files cover 512 blocks a side (`shr 9`), chunk files 16 (`shr 4`). */
  datatype Grain = Region | Chunk

  function Scale(g: Grain): int
  {
    if g == Region then 512 else 16
  }

  /** Kotlin `shr 9` / `shr 4` on `Int`: an arithmetic shift, which rounds toward minus infinity. */
  function Shr(v: int, g: Grain): int
  {
    v / Scale(g)
  }

  function Min(a: int, b: int): int
  {
    if a <= b then a else b
  }

  function Max(a: int, b: int): int
  {
    if a <= b then b else a
  }

  /** What `p.extension` makes of a path the command's lambda sees. */
  datatype FileKind = Outside | RegionFile(name: string) | ChunkFile(name: string) | OtherFile

  /**
   * The path `path.resolve(it).normalize()` (`root` the save root, `rel` the path the
   * restore walk passes), judged by the world's save directory and its extension.
   */
  function Classify(worldDir: Path, root: Path, rel: Path): (k: FileKind)
    ensures k.Outside? <==> !IsFileInWorld(worldDir, Normalize(root + rel))
    ensures (k.RegionFile? || k.ChunkFile?) ==>
      k.name == Name("", Normalize(root + rel)) &&
      AfterLast(k.name, '.') == (if k.RegionFile? then "mca" else "mcc")
  {
    var p := Normalize(root + rel);
    if !IsFileInWorld(worldDir, p) then Outside
    else
      var name := Name("", p);
      var ext := AfterLast(name, '.');
      if ext == "mca" then RegionFile(name)
      else if ext == "mcc" then ChunkFile(name)
      else OtherFile
  }

  /** Why the lambda throws: a field index past the end, or a field that is not an `Int`. */
  datatype FilterError = NoSuchField(index: nat) | NotANumber(text: string)

  /** Fields 1 and 2 of the dot-split file name, read with `toInt()`, x first. */
  function Coordinates(name: string): (r: Result<(int, int), FilterError>)
    ensures r.Success? ==> IsInt(r.value.0) && IsInt(r.value.1)
  {
    var parts := Split(name, '.');
    if |parts| < 2 then Failure(NoSuchField(1))
    else match ParseInt(parts[1])
      case None => Failure(NotANumber(parts[1]))
      case Some(x) =>
        if |parts| < 3 then Failure(NoSuchField(2))
        else match ParseInt(parts[2])
          case None => Failure(NotANumber(parts[2]))
          case Some(z) => Success((x, z))
  }

  /** The block columns the two corners span. */
  predicate Covers(from: ColumnPos, to: ColumnPos, bx: int, bz: int)
  {
    Min(from.x, to.x) <= bx <= Max(from.x, to.x) && Min(from.z, to.z) <= bz <= Max(from.z, to.z)
  }

  /**
   * The multi-version build's test, as written: the file's own coordinates, which
   * already count regions or chunks, are shifted once more, like the corners.
   */
  predicate CoreInRange(x: int, z: int, from: ColumnPos, to: ColumnPos, g: Grain)
  {
    Shr(x, g) >= Min(Shr(from.x, g), Shr(to.x, g)) && Shr(x, g) <= Max(Shr(from.x, g), Shr(to.x, g)) &&
    Shr(z, g) >= Min(Shr(from.z, g), Shr(to.z, g)) && Shr(z, g) <= Max(Shr(from.z, g), Shr(to.z, g))
  }

  /**
   * The single-version build's test, as written: all four bounds come from
   * `from.x` and `to.z` (infix `shr` binds tighter than the comparisons).
   */
  predicate SrcInRange(x: int, z: int, from: ColumnPos, to: ColumnPos, g: Grain)
  {
    var minX, maxX := Min(from.x, to.z), Max(from.x, to.z);
    var minZ, maxZ := Min(from.x, to.z), Max(from.x, to.z);
    x >= Shr(minX, g) && x <= Shr(maxX, g) && z >= Shr(minZ, g) && z <= Shr(maxZ, g)
  }

  /** The test both builds mean: the file's coordinates lie between the corners' shifted ones, per axis. */
  predicate InRange(x: int, z: int, from: ColumnPos, to: ColumnPos, g: Grain)
  {
    Shr(Min(from.x, to.x), g) <= x <= Shr(Max(from.x, to.x), g) &&
    Shr(Min(from.z, to.z), g) <= z <= Shr(Max(from.z, to.z), g)
  }

  /** Which test a filter applies. */
  datatype Variant = CoreAsWritten | SrcAsWritten | Intended

  predicate InRangeOf(v: Variant, x: int, z: int, from: ColumnPos, to: ColumnPos, g: Grain)
  {
    match v
    case CoreAsWritten => CoreInRange(x, z, from, to, g)
    case SrcAsWritten => SrcInRange(x, z, from, to, g)
    case Intended => InRange(x, z, from, to, g)
  }

  /** The file's coordinates tested at grain `g`; a bad name makes the lambda throw. */
  function TestFile(v: Variant, name: string, from: ColumnPos, to: ColumnPos, g: Grain): (r: Result<bool, FilterError>)
    ensures r.Success? <==> Coordinates(name).Success?
  {
    match Coordinates(name)
    case Failure(e) => Failure(e)
    case Success(c) => Success(InRangeOf(v, c.0, c.1, from, to, g))
  }

  /**
   * The `--chunk` lambda: false outside the world and for other extensions; for a
   * ".mca" or ".mcc" file, the range test at region or chunk grain.
   */
  function ChunkFilter(v: Variant, worldDir: Path, root: Path, from: ColumnPos, to: ColumnPos, rel: Path)
    : (r: Result<bool, FilterError>)
    ensures !IsFileInWorld(worldDir, Normalize(root + rel)) ==> r == Success(false)
    ensures r.Failure? ==> var k := Classify(worldDir, root, rel);
      (k.RegionFile? || k.ChunkFile?) && Coordinates(k.name).Failure?
  {
    match Classify(worldDir, root, rel)
    case Outside => Success(false)
    case OtherFile => Success(false)
    case RegionFile(name) => TestFile(v, name, from, to, Region)
    case ChunkFile(name) => TestFile(v, name, from, to, Chunk)
  }

  /** One axis: a coordinate lies between the shifted bounds iff some block between the bounds shifts to it. */
  lemma ShiftedBetween(lo: int, hi: int, x: int, g: Grain)
    requires lo <= hi
    ensures (Shr(lo, g) <= x <= Shr(hi, g)) <==> exists b :: lo <= b <= hi && Shr(b, g) == x
  {
    var d := Scale(g);
    if Shr(lo, g) <= x <= Shr(hi, g) {
      var b := if x * d >= lo then x * d else lo;
      assert x * d <= hi by {
        assert hi / d >= x;
        assert hi >= (hi / d) * d;
      }
      assert b / d == x;
      assert lo <= b <= hi && Shr(b, g) == x;
    }
    if exists b :: lo <= b <= hi && Shr(b, g) == x {
      var b :| lo <= b <= hi && Shr(b, g) == x;
      assert lo / d <= b / d <= hi / d;
    }
  }

  /**
   * The intended test accepts a file exactly when some block column of the
   * selected rectangle lies in that region (or chunk).
   */
  lemma InRangeMeansOverlap(x: int, z: int, from: ColumnPos, to: ColumnPos, g: Grain)
    ensures InRange(x, z, from, to, g) <==>
      exists bx, bz :: Covers(from, to, bx, bz) && Shr(bx, g) == x && Shr(bz, g) == z
  {
    ShiftedBetween(Min(from.x, to.x), Max(from.x, to.x), x, g);
    ShiftedBetween(Min(from.z, to.z), Max(from.z, to.z), z, g);
    if InRange(x, z, from, to, g) {
      var bx :| Min(from.x, to.x) <= bx <= Max(from.x, to.x) && Shr(bx, g) == x;
      var bz :| Min(from.z, to.z) <= bz <= Max(from.z, to.z) && Shr(bz, g) == z;
      assert Covers(from, to, bx, bz);
    }
  }

  /**
   * The multi-version build, as written: with both corners at block (0, 0), only
   * region 0 is selected, yet the file of region 1 passes, since `1 shr 9 == 0`.
   */
  lemma CoreInRangeOvershifts()
    ensures CoreInRange(1, 0, ColumnPos(0, 0), ColumnPos(0, 0), Region)
    ensures !InRange(1, 0, ColumnPos(0, 0), ColumnPos(0, 0), Region)
    ensures !exists bx, bz :: Covers(ColumnPos(0, 0), ColumnPos(0, 0), bx, bz) && Shr(bx, Region) == 1 && Shr(bz, Region) == 0
  {
    InRangeMeansOverlap(1, 0, ColumnPos(0, 0), ColumnPos(0, 0), Region);
  }

  /**
   * The single-version build, as written: corners (0, 0) and (1000, 0) span blocks
   * 512..1000 of region 1, yet the file of region 1 fails, its x bound taken from `to.z`.
   */
  lemma SrcInRangeMixesAxes()
    ensures !SrcInRange(1, 0, ColumnPos(0, 0), ColumnPos(1000, 0), Region)
    ensures InRange(1, 0, ColumnPos(0, 0), ColumnPos(1000, 0), Region)
    ensures Covers(ColumnPos(0, 0), ColumnPos(1000, 0), 600, 0) && Shr(600, Region) == 1 && Shr(0, Region) == 0
  {
  }

  /** A file name of four dot-separated fields: `prefix.X.Z.ext`. */
  function FileName(prefix: string, x: int, z: int, ext: string): string
  {
    prefix + "." + Show(x) + "." + Show(z) + "." + ext
  }

  /** The name the game gives the file of region (x, z): `r.X.Z.mca`. */
  function RegionName(x: int, z: int): string
  {
    FileName("r", x, z, "mca")
  }

  /** The name of the chunk file of chunk (x, z): `c.X.Z.mcc`. */
  function ChunkName(x: int, z: int): string
  {
    FileName("c", x, z, "mcc")
  }

  /** Four fields with no dot in them, joined by dots, split back into the four. */
  lemma FieldsOfName(prefix: string, a: string, b: string, ext: string)
    requires '.' !in prefix && '.' !in a && '.' !in b && '.' !in ext
    ensures Split(prefix + "." + a + "." + b + "." + ext, '.') == [prefix, a, b, ext]
    ensures AfterLast(prefix + "." + a + "." + b + "." + ext, '.') == ext
  {
    var t3 := b + ['.'] + ext;
    var t2 := a + ['.'] + t3;
    SplitNoDelimiter(ext, '.');
    SplitAfterPiece(b, '.', ext);
    SplitAfterPiece(a, '.', t3);
    SplitAfterPiece(prefix, '.', t2);
    var head := prefix + ['.'] + a + ['.'] + b;
    DotsRegroup(prefix, a, b, ext);
    AfterLastPiece(head, '.', ext);
  }

  /** The dotted name, grouped from the right (as `Split` reads it) and from the left (as `AfterLast` does). */
  lemma DotsRegroup(prefix: string, a: string, b: string, ext: string)
    ensures prefix + "." + a + "." + b + "." + ext == prefix + ['.'] + (a + ['.'] + (b + ['.'] + ext))
    ensures prefix + "." + a + "." + b + "." + ext == (prefix + ['.'] + a + ['.'] + b) + ['.'] + ext
  {
  }

  /** The coordinates read back from a name `prefix.X.Z.ext` are X and Z. */
  lemma CoordinatesOfFileName(prefix: string, x: int, z: int, ext: string)
    requires IsInt(x) && IsInt(z) && '.' !in prefix && '.' !in ext
    ensures Coordinates(FileName(prefix, x, z, ext)) == Success((x, z))
    ensures AfterLast(FileName(prefix, x, z, ext), '.') == ext
  {
    FieldsOfName(prefix, Show(x), Show(z), ext);
    ParseShow(x);
    ParseShow(z);
  }

  /** The coordinates read back from a region or chunk file name are the ones it was named for. */
  lemma CoordinatesOfNames(x: int, z: int)
    requires IsInt(x) && IsInt(z)
    ensures Coordinates(RegionName(x, z)) == Success((x, z)) && AfterLast(RegionName(x, z), '.') == "mca"
    ensures Coordinates(ChunkName(x, z)) == Success((x, z)) && AfterLast(ChunkName(x, z), '.') == "mcc"
  {
    CoordinatesOfFileName("r", x, z, "mca");
    CoordinatesOfFileName("c", x, z, "mcc");
  }

  /**
   * For the file of region (x, z) below the save root, inside the world's directory,
   * each filter answers its range test at region grain, and never throws.
   */
  lemma ChunkFilterOnRegionFile(v: Variant, worldDir: Path, root: Path, dir: Path, x: int, z: int,
                                from: ColumnPos, to: ColumnPos)
    requires IsInt(x) && IsInt(z)
    requires Plain(dir + [RegionName(x, z)])
    requires IsPrefix(Normalize(worldDir), Normalize(root) + dir + [RegionName(x, z)])
    ensures ChunkFilter(v, worldDir, root, from, to, dir + [RegionName(x, z)]) == Success(InRangeOf(v, x, z, from, to, Region))
  {
    var rel := dir + [RegionName(x, z)];
    NormalizeFromAppend([], root, rel);
    NormalizeFromPlain(Normalize(root), rel);
    assert Normalize(root + rel) == Normalize(root) + rel;
    NormalizeIdempotent(root + rel);
    assert Normalize(root) + dir + [RegionName(x, z)] == Normalize(root) + rel;
    assert IsFileInWorld(worldDir, Normalize(root + rel));
    CoordinatesOfNames(x, z);
    assert Classify(worldDir, root, rel) == RegionFile(RegionName(x, z));
  }

  /**
   * A path the caller ignores (for `--chunk`, one `ChunkFilter` does not accept) is
   * neither restored from the backup nor deleted by either first pass.
   */
  lemma IgnoredPathKept(ignored: Path -> bool, entries: seq<CommonCatalog.Entry>, target: Tree,
                        ignoredFiles: set<string>, rootName: string, rel: Path)
    requires ignored(rel)
    ensures var m := CommonCatalog.RestoreMap(entries, ignored);
      rel !in m &&
      CommonCatalog.RestoreDecision(target, m, ignoredFiles, ignored, rel) == Keep &&
      CoreService.CoreRestoreDecision(target, m, rootName, ignored, rel) == Keep
  {
  }

  // ---- `/xb list [offset]`

  const PageSize: nat := 6

  /** What `/xb list` sends: "no backups found", or a page and, when more remain, the link to the next. */
  datatype ListReply = NoBackupsFound | Page(shown: seq<BackupRow>, next: Option<nat>)

  /** `/xb list offset` over the stored rows (`backupCount()` is their number). */
  function ListCommand(rows: seq<BackupRow>, offset: nat): (r: ListReply)
    ensures r.NoBackupsFound? <==> offset >= |rows|
    ensures r.Page? ==> 1 <= |r.shown| <= PageSize && r.shown == ListPage(rows, offset, PageSize)
    ensures r.Page? ==> (r.next.Some? <==> |rows| > offset + PageSize)
    ensures r.Page? && r.next.Some? ==> r.next.value == offset + PageSize && |r.shown| == PageSize
  {
    var page := ListPage(rows, offset, PageSize);
    if page == [] then NoBackupsFound
    else Page(page, if |rows| > offset + PageSize then Some(offset + PageSize) else None)
  }

  /** Everything listed by following the "more" links from `offset`. */
  function Browse(rows: seq<BackupRow>, offset: nat): seq<BackupRow>
    decreases |rows| - offset
  {
    match ListCommand(rows, offset)
    case NoBackupsFound => []
    case Page(shown, next) => if next.None? then shown else shown + Browse(rows, next.value)
  }

  /** Following the links lists every backup from `offset` on, newest first, each once. */
  lemma {:induction false} BrowseListsAll(rows: seq<BackupRow>, offset: nat)
    ensures Browse(rows, offset) == ListPage(rows, offset, -1)
    decreases |rows| - offset
  {
    match ListCommand(rows, offset)
    case NoBackupsFound =>
      assert ListPage(rows, offset, -1) == [];
    case Page(shown, next) =>
      if next.None? {
        assert ListPage(rows, offset, -1) == ListPage(rows, offset, PageSize);
      } else {
        BrowseListsAll(rows, offset + PageSize);
        ListPagesConcatenate(rows, offset, PageSize, |rows|);
        assert ListPage(rows, offset + PageSize, |rows|) == ListPage(rows, offset + PageSize, -1);
        assert ListPage(rows, offset, PageSize + |rows|) == ListPage(rows, offset, -1);
      }
  }

  // ---- `doRestore`

  /** The status texts `doRestore` sets in `reason`, and the two error messages it sends. */
  function AutoBackupReason(id: int): string { "Auto-backup before restoring to #" + Show(id) }
  function RestoringReason(id: int): string { "Restoring backup #" + Show(id) }
  function FinishedReason(id: int): string { RestoringReason(id) + " finished, launching server" }
  function NotFoundMessage(id: int): string { "Backup #" + Show(id) + " not found" }
  const CorruptedMessage: string := "command.xb.backup_corrupted"

  /** What the auto-backup in front of every restore records: a save of all worlds, then the backup. */
  function AutoBackupEvents(id: int): seq<Event>
  {
    [SaveAll, CreateBackup(AutoBackupReason(id))]
  }

  /** Texts that agree around a middle part agree in the middle. */
  lemma CancelAround(p: string, a: string, b: string, t: string)
    requires p + a + t == p + b + t
    ensures a == b
  {
    assert a == (p + a + t)[|p|..|p| + |a|];
    assert b == (p + b + t)[|p|..|p| + |b|];
  }

  /** A middle part with no space cannot be followed, after the same prefix, by a text starting with one. */
  lemma NoSpaceNoTail(p: string, a: string, b: string, t: string)
    requires ' ' !in a && t != [] && t[0] == ' '
    ensures p + a != p + b + t
  {
    if |a| == |b| + |t| {
      assert (p + a)[|p| + |b|] == a[|b|] != ' ';
      assert (p + b + t)[|p| + |b|] == t[0] == ' ';
    }
  }

  /**
   * Each status text names one backup, and the three stages never share a text:
   * `reason` tells which restore is under way and how far it got.
   */
  lemma ReasonsIdentifyBackup(a: int, b: int)
    requires IsInt(a) && IsInt(b)
    ensures AutoBackupReason(a) == AutoBackupReason(b) ==> a == b
    ensures RestoringReason(a) == RestoringReason(b) ==> a == b
    ensures FinishedReason(a) == FinishedReason(b) ==> a == b
    ensures RestoringReason(a) != FinishedReason(b)
    ensures AutoBackupReason(a) != RestoringReason(b) && AutoBackupReason(a) != FinishedReason(b)
  {
    var auto, restoring, tail := "Auto-backup before restoring to #", "Restoring backup #", " finished, launching server";
    if AutoBackupReason(a) == AutoBackupReason(b) {
      CancelAround(auto, Show(a), Show(b), "");
      ShowInjective(a, b);
    }
    if RestoringReason(a) == RestoringReason(b) {
      CancelAround(restoring, Show(a), Show(b), "");
      ShowInjective(a, b);
    }
    if FinishedReason(a) == FinishedReason(b) {
      CancelAround(restoring, Show(a), Show(b), tail);
      ShowInjective(a, b);
    }
    NoSpaceNoTail(restoring, Show(a), Show(b), tail);
    assert AutoBackupReason(a)[0] == 'A' && RestoringReason(b)[0] == 'R' && FinishedReason(b)[0] == 'R';
  }

  /** Nothing blocked, disabled or restoring, and every world saving automatically. */
  predicate Settled(s: Server)
    reads s
  {
    !s.blockPlayerJoin && !s.disableWatchdog && !s.disableSaving && !s.restoring &&
    forall i :: 0 <= i < |s.savingDisabled| ==> !s.savingDisabled[i]
  }

  /**
   * The auto-backup both builds take before restoring: the watchdog is disabled and
   * `reason` set, the worlds saved, automatic saving and `disableSaving` held while
   * the backup runs and released after it. When the backup throws, the release is
   * skipped: saving stays disabled.
   */
  method BackupBeforeRestore(mod: Mod, id: int, backupFails: bool) returns (ok: bool)
    requires mod.Valid()
    modifies mod.server, mod.log
    ensures mod.Valid() && ok == !backupFails
    ensures mod.log.events == old(mod.log.events) + AutoBackupEvents(id)
    ensures mod.server.reason == AutoBackupReason(id) && mod.server.disableWatchdog
    ensures mod.server.disableSaving == backupFails
    ensures forall i :: 0 <= i < |mod.server.savingDisabled| ==> mod.server.savingDisabled[i] == backupFails
    ensures mod.server.players == old(mod.server.players) && mod.server.restoring == old(mod.server.restoring)
    ensures mod.server.blockPlayerJoin == old(mod.server.blockPlayerJoin)
    ensures mod.server.running == old(mod.server.running) && mod.server.stopped == old(mod.server.stopped)
  {
    var server := mod.server;
    server.reason := AutoBackupReason(id);
    server.disableWatchdog := true;
    mod.log.events := mod.log.events + [SaveAll];
    server.SetAutoSaving(false);
    server.disableSaving := true;
    mod.log.events := mod.log.events + [CreateBackup(AutoBackupReason(id))];
    if backupFails {
      return false;
    }
    server.SetAutoSaving(true);
    server.disableSaving := false;
    ok := true;
  }

  /**
   * The server-stop hook, run at the end of shutdown. The restore hook first resets
   * itself to nothing, so it runs once; it restores the files (a failure is logged and
   * leaves the first status text); then, unless the restore forced a stop or the
   * server is single player, it releases the lock and re-enters the server loop. The
   * empty hook does nothing.
   */
  method RunStopHook(mod: Mod, restoreFails: bool)
    requires mod.Valid()
    modifies mod, mod.server, mod.log
    ensures mod.Valid() && mod.serverStopHook == NoHook
    ensures old(mod.serverStopHook).NoHook? ==>
      mod.log.events == old(mod.log.events) && mod.isBusy == old(mod.isBusy) &&
      mod.server.Flags() == old(mod.server.Flags())
    ensures old(mod.serverStopHook).RestoreHook? ==> (
      var h := old(mod.serverStopHook);
      var restart := !h.forceStop && !h.singleplayer;
      mod.log.events == old(mod.log.events) + [RestoreFiles(h.id)] + (if restart then [RunServer] else []) &&
      mod.server.reason == (if restoreFails then RestoringReason(h.id) else FinishedReason(h.id)) &&
      (restart ==> (!mod.isBusy && mod.server.running && !mod.server.stopped &&
        !mod.server.blockPlayerJoin && !mod.server.disableWatchdog && !mod.server.disableSaving && !mod.server.restoring)) &&
      (!restart ==> (mod.isBusy == old(mod.isBusy) && mod.server.running == old(mod.server.running) &&
        mod.server.stopped == old(mod.server.stopped) && mod.server.blockPlayerJoin == old(mod.server.blockPlayerJoin) &&
        mod.server.disableWatchdog == old(mod.server.disableWatchdog) &&
        mod.server.disableSaving == old(mod.server.disableSaving) && mod.server.restoring == old(mod.server.restoring))))
    ensures mod.server.savingDisabled == old(mod.server.savingDisabled) && mod.server.players == old(mod.server.players)
  {
    var hook := mod.serverStopHook;
    if hook.NoHook? {
      return;
    }
    mod.serverStopHook := NoHook;
    mod.server.reason := RestoringReason(hook.id);
    mod.log.events := mod.log.events + [RestoreFiles(hook.id)];
    if !restoreFails {
      mod.server.reason := FinishedReason(hook.id);
    }
    if !hook.forceStop && !hook.singleplayer {
      mod.isBusy := false;
      mod.server.FinishRestoreSingle();
    }
  }

  /** How a `/xb restore` ended. */
  datatype RestoreOutcome =
    | BackupNotFound                                 // no backup with that id
    | AutoBackupFailed                               // the backup taken before restoring threw
    | Busy                                           // `ensureNotBusy`: "Backup is already running"
    | Corrupted                                      // `check` found a missing or damaged blob
    | RestoredAtShutdown(restoreFailed: bool)        // the stop hook restored the files
    | Restored(prepared: Outcome, restoreFailed: bool) // restored in place after `prepareRestore`

  /**
   * `doRestore` of the single-version build. `found`, `backupFails`, `intact` and
   * `restoreFails` are what the backup service answers: the lookup, the auto-backup,
   * `check` and `restore`. The lookup fails before anything happens; after the
   * auto-backup the lock is taken; a damaged backup is reported; otherwise
   * `restoring` is set, the stop hook installed and the server stopped, and the hook
   * runs at the end of shutdown. The launched block's `finally` releases the lock.
   */
  method DoRestoreSrc(mod: Mod, id: int, found: bool, backupFails: bool, intact: bool,
                      forceStop: bool, singleplayer: bool, restoreFails: bool)
    returns (outcome: RestoreOutcome)
    requires mod.Valid()
    modifies mod, mod.server, mod.log
    ensures mod.Valid()
    ensures !found ==>
      outcome == BackupNotFound && mod.log.events == old(mod.log.events) && mod.isBusy == old(mod.isBusy) &&
      mod.server.Flags() == old(mod.server.Flags()) && mod.server.savingDisabled == old(mod.server.savingDisabled)
    ensures found ==> mod.server.players == old(mod.server.players)
    ensures found && backupFails ==>
      outcome == AutoBackupFailed && mod.log.events == old(mod.log.events) + AutoBackupEvents(id) &&
      mod.isBusy == old(mod.isBusy) && mod.server.disableSaving && mod.server.disableWatchdog
    ensures found && !backupFails && old(mod.isBusy) ==>
      outcome == Busy && mod.isBusy && mod.log.events == old(mod.log.events) + AutoBackupEvents(id) &&
      !mod.server.disableSaving && mod.server.disableWatchdog
    ensures found && !backupFails && !old(mod.isBusy) && !intact ==>
      outcome == Corrupted && !mod.isBusy &&
      mod.log.events == old(mod.log.events) + AutoBackupEvents(id) + [SendError(CorruptedMessage)] &&
      !mod.server.disableSaving && mod.server.disableWatchdog && mod.server.restoring == old(mod.server.restoring)
    ensures found && !backupFails && !old(mod.isBusy) && intact ==> (
      var restart := !forceStop && !singleplayer;
      outcome == RestoredAtShutdown(restoreFails) && !mod.isBusy &&
      mod.log.events == old(mod.log.events) + AutoBackupEvents(id) + [RequestStop, RestoreFiles(id)] +
        (if restart then [RunServer] else []) &&
      mod.server.reason == (if restoreFails then RestoringReason(id) else FinishedReason(id)) &&
      (restart ==> Settled(mod.server) && mod.server.running && !mod.server.stopped) &&
      (!restart ==> mod.server.restoring && mod.server.disableWatchdog && !mod.server.disableSaving))
    ensures outcome != RestoredAtShutdown(restoreFails) ==> mod.serverStopHook == old(mod.serverStopHook)
    ensures outcome == RestoredAtShutdown(restoreFails) ==> mod.serverStopHook == NoHook
  {
    if !found {
      return BackupNotFound;
    }
    var ok := BackupBeforeRestore(mod, id, backupFails);
    if !ok {
      return AutoBackupFailed;
    }
    var busy := mod.EnsureNotBusy(true);
    if busy.Some? {
      return Busy;
    }
    if !intact {
      mod.log.events := mod.log.events + [SendError(CorruptedMessage)];
      mod.Release();
      return Corrupted;
    }
    StopForRestore(mod, id, forceStop, singleplayer, restoreFails);
    outcome := RestoredAtShutdown(restoreFails);
  }

  /**
   * The end of the single-version `doRestore` with the lock held: `restoring` is set,
   * the stop hook installed and the server stopped; the hook runs at the end of
   * shutdown, and the launched block's `finally` releases the lock.
   */
  method StopForRestore(mod: Mod, id: int, forceStop: bool, singleplayer: bool, restoreFails: bool)
    requires mod.Valid()
    modifies mod, mod.server, mod.log
    ensures mod.Valid() && mod.serverStopHook == NoHook && !mod.isBusy
    ensures var restart := !forceStop && !singleplayer;
      mod.log.events == old(mod.log.events) + [RequestStop, RestoreFiles(id)] + (if restart then [RunServer] else []) &&
      mod.server.reason == (if restoreFails then RestoringReason(id) else FinishedReason(id)) &&
      (restart ==> (!mod.server.blockPlayerJoin && !mod.server.disableWatchdog && !mod.server.disableSaving &&
        !mod.server.restoring && mod.server.running && !mod.server.stopped)) &&
      (!restart ==> (mod.server.restoring && mod.server.disableWatchdog == old(mod.server.disableWatchdog) &&
        mod.server.disableSaving == old(mod.server.disableSaving)))
    ensures mod.server.players == old(mod.server.players) && mod.server.savingDisabled == old(mod.server.savingDisabled)
  {
    mod.server.restoring := true;
    mod.serverStopHook := RestoreHook(id, forceStop, singleplayer);
    mod.log.events := mod.log.events + [RequestStop];
    RunStopHook(mod, restoreFails);
    mod.Release();
  }

  /**
   * The `try` of the multi-version `doRestore`, once the lock is held and the backup
   * found: `prepareRestore` (which stops a single-player server instead of quiescing
   * it), the restore, a stop request after a forced restore that succeeded, and in
   * `finally` the version's `finishRestore` and automatic saving back on.
   */
  method RestoreInPlace(server: Server, id: int, singleplayer: bool, observed: seq<seq<WorldDelays>>,
                        forceStop: bool, restoreFails: bool)
    returns (prepared: Outcome)
    requires server.Valid()
    modifies server, server.log
    ensures server.Valid() && Settled(server)
    ensures prepared.ServerStopped? <==> singleplayer
    ensures server.log.events == old(server.log.events) +
      PrepareTrace(server.version, server.worlds, old(server.players), RestoringReason(id), prepared) +
      [RestoreFiles(id)] + (if forceStop && !restoreFails then [RequestStop] else []) +
      FinishTrace(server.version, server.worlds)
    ensures server.reason == (if !forceStop && !restoreFails then FinishedReason(id) else RestoringReason(id))
  {
    prepared := server.PrepareRestore(RestoringReason(id), singleplayer, observed);
    ghost var prepLog := server.log.events;
    var stop: seq<Event> := if forceStop && !restoreFails then [RequestStop] else [];
    server.log.events := server.log.events + ([RestoreFiles(id)] + stop);
    if !forceStop && !restoreFails {
      server.reason := FinishedReason(id);
    }
    FinishInPlace(server);
  }

  /** The `finally` of the multi-version `doRestore`: the version's `finishRestore`, then automatic saving on. */
  method FinishInPlace(server: Server)
    requires server.Valid()
    modifies server, server.log
    ensures server.Valid() && Settled(server) && server.reason == old(server.reason)
    ensures server.log.events == old(server.log.events) + FinishTrace(server.version, server.worlds)
  {
    server.FinishRestoreCore();
    server.SetAutoSaving(true);
  }

  /**
   * `doRestore` of the multi-version build. After the auto-backup the lock is taken
   * and the lookup made; a missing backup is reported; otherwise the restore runs in
   * place (`RestoreInPlace`). The launched block's `finally` releases the lock.
   * `observed` is what the quiesce loop sees.
   */
  method DoRestoreCore(mod: Mod, id: int, backupFails: bool, found: bool, singleplayer: bool,
                       observed: seq<seq<WorldDelays>>, forceStop: bool, restoreFails: bool)
    returns (outcome: RestoreOutcome)
    requires mod.Valid()
    modifies mod, mod.server, mod.log
    ensures mod.Valid() && mod.serverStopHook == old(mod.serverStopHook)
    ensures backupFails ==>
      outcome == AutoBackupFailed && mod.log.events == old(mod.log.events) + AutoBackupEvents(id) &&
      mod.isBusy == old(mod.isBusy) && mod.server.disableSaving && mod.server.disableWatchdog
    ensures !backupFails && old(mod.isBusy) ==>
      outcome == Busy && mod.isBusy && mod.log.events == old(mod.log.events) + AutoBackupEvents(id) &&
      !mod.server.disableSaving && mod.server.disableWatchdog
    ensures !backupFails && !old(mod.isBusy) && !found ==>
      outcome == BackupNotFound && !mod.isBusy &&
      mod.log.events == old(mod.log.events) + AutoBackupEvents(id) + [SendError(NotFoundMessage(id))] &&
      !mod.server.disableSaving && mod.server.disableWatchdog
    ensures !backupFails && !old(mod.isBusy) && found ==>
      outcome.Restored? && outcome.restoreFailed == restoreFails &&
      (outcome.prepared.ServerStopped? <==> singleplayer) && !mod.isBusy && Settled(mod.server) &&
      mod.log.events == old(mod.log.events) + AutoBackupEvents(id) +
        PrepareTrace(mod.server.version, mod.server.worlds, old(mod.server.players), RestoringReason(id), outcome.prepared) +
        [RestoreFiles(id)] + (if forceStop && !restoreFails then [RequestStop] else []) +
        FinishTrace(mod.server.version, mod.server.worlds) &&
      mod.server.reason == (if !forceStop && !restoreFails then FinishedReason(id) else RestoringReason(id))
  {
    var ok := BackupBeforeRestore(mod, id, backupFails);
    if !ok {
      return AutoBackupFailed;
    }
    var busy := mod.EnsureNotBusy(true);
    if busy.Some? {
      return Busy;
    }
    if !found {
      mod.log.events := mod.log.events + [SendError(NotFoundMessage(id))];
      mod.Release();
      return BackupNotFound;
    }
    var prepared := RestoreInPlace(mod.server, id, singleplayer, observed, forceStop, restoreFails);
    mod.Release();
    outcome := Restored(prepared, restoreFails);
  }
}
