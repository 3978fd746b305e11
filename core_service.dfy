/**
 * The older `BackupDatabaseService` of the `core` module: the same three tables and
 * blob directory, a per-file step that looks a row up by path and then by hash alone,
 * a `deleteBackup` by id, and a `restore` whose walk includes the target root and
 * deletes, recursively, every path the backup does not have.
 *
 * The core's `gzip` flag is the `compress` field of `Entry` (1 for gzip, 0 for raw),
 * and its backup rows are `BackupRow`s that are never temporary.
 */
module CoreService {
  import opened Wrappers
  import opened Paths
  import opened Hex
  import opened Store
  import opened CommonCatalog
  import CommonService

  /** The names the core service never backs up nor deletes. */
  const CoreIgnoredFiles: set<string> := {"x_backup.db", "x_backup.db-journal", "session.lock"}

  /** The core's row shape: a directory has the empty hash, a file a non-empty one. */
  predicate KindByHash(e: Entry)
  {
    e.isDirectory <==> e.hash == ""
  }

  /** The paths the core `createBackup` walks: not an ignored name, not under `blobDir`, accepted by the caller. */
  function CoreWalked(tree: Tree, rootName: string, root: Path, blobDir: Path, accept: Path -> bool): (r: set<Path>)
    ensures forall q :: q in r <==> (q in tree && Name(rootName, q) !in CoreIgnoredFiles &&
      !IsPrefix(Normalize(blobDir), Normalize(root + q)) && accept(root + q))
  {
    set q | q in tree && Name(rootName, q) !in CoreIgnoredFiles &&
      !IsPrefix(Normalize(blobDir), Normalize(root + q)) && accept(root + q)
  }

  /** The first lookup's test: both directories, or both files with the same time and size. */
  predicate CoreUnchanged(e: Entry, n: Node)
  {
    (n.Dir? && e.isDirectory) ||
    (n.File? && !e.isDirectory && n.lastModified == e.lastModified && Length(n) == e.size)
  }

  /** The row the core inserts for a path it cannot reuse, and the blob it writes for a file. */
  function CoreInsert(p: Path, n: Node, md5: string, gzip: seq<byte> -> seq<byte>, newId: int): (s: Step)
    ensures s.Insert? && s.entry.id == newId && s.entry.path == p && s.entry.size == Length(n)
    ensures s.entry.lastModified == n.lastModified && s.entry.isDirectory == n.Dir? && s.entry.hash == md5
    ensures s.entry.compress == (if Length(n) > 1024 then 1 else 0)
    ensures n.Dir? ==> s.entry.zippedSize == 0 && s.blob.None?
    ensures n.File? ==> (s.blob == Some(if Length(n) > 1024 then gzip(n.content) else n.content) &&
      s.entry.zippedSize == |s.blob.value|)
  {
    var gz := Length(n) > 1024;
    if n.File? then
      var data := if gz then gzip(n.content) else n.content;
      Insert(Entry(newId, p, Length(n), |data|, n.lastModified, false, md5, if gz then 1 else 0), Some(data))
    else
      Insert(Entry(newId, p, Length(n), 0, n.lastModified, true, md5, if gz then 1 else 0), None)
  }

  /**
   * The per-file work of the core `createBackup`, as written: the first row with the
   * path is reused when unchanged or of the same hash; otherwise ANY row with the
   * same hash is reused, whatever its path; otherwise a row is inserted.
   */
  function CoreStepAsWritten(rows: seq<Entry>, digest: seq<byte> -> Digest, gzip: seq<byte> -> seq<byte>,
                             p: Path, n: Node, newId: int): (s: Step)
    ensures s.Reuse? ==> s.entry in rows
    ensures s.Insert? ==> s == CoreInsert(p, n, if n.File? then HashText(digest, n.content) else "", gzip, newId)
  {
    var existing := First(rows, (e: Entry) => e.path == p);
    if existing.Some? && CoreUnchanged(existing.value, n) then Reuse(existing.value)
    else
      var md5 := if n.File? then HashText(digest, n.content) else "";
      if existing.Some? && existing.value.hash == md5 then Reuse(existing.value)
      else
        var any := First(rows, (e: Entry) => e.hash == md5);
        if any.Some? then Reuse(any.value) else CoreInsert(p, n, md5, gzip, newId)
  }

  /**
   * The per-file work as intended: the hash lookup is confined to rows of the same
   * path, so the entry collected for a path is always a row of that path.
   */
  function CoreStep(rows: seq<Entry>, digest: seq<byte> -> Digest, gzip: seq<byte> -> seq<byte>,
                    p: Path, n: Node, newId: int): (s: Step)
    ensures s.Reuse? ==> s.entry in rows && s.entry.path == p
    ensures s.Reuse? && (forall e :: e in rows ==> KindByHash(e)) ==> s.entry.isDirectory == n.Dir?
    ensures s.Reuse? && n.File? ==>
      (s.entry.lastModified == n.lastModified && s.entry.size == Length(n)) ||
      s.entry.hash == HashText(digest, n.content)
    ensures s.Insert? ==> s == CoreInsert(p, n, if n.File? then HashText(digest, n.content) else "", gzip, newId)
    ensures s.Insert? ==> KindByHash(s.entry)
  {
    var existing := First(rows, (e: Entry) => e.path == p);
    if existing.Some? && CoreUnchanged(existing.value, n) then Reuse(existing.value)
    else
      var md5 := if n.File? then HashText(digest, n.content) else "";
      if existing.Some? && existing.value.hash == md5 then Reuse(existing.value)
      else
        var same := First(rows, (e: Entry) => e.path == p && e.hash == md5);
        if same.Some? then Reuse(same.value) else CoreInsert(p, n, md5, gzip, newId)
  }

  /** The two steps differ only where the as-written one reuses a row of another path. */
  lemma CoreStepAgrees(rows: seq<Entry>, digest: seq<byte> -> Digest, gzip: seq<byte> -> seq<byte>,
                       p: Path, n: Node, newId: int)
    requires CoreStepAsWritten(rows, digest, gzip, p, n, newId).Insert? ||
      CoreStepAsWritten(rows, digest, gzip, p, n, newId).entry.path == p
    ensures CoreStep(rows, digest, gzip, p, n, newId) == CoreStepAsWritten(rows, digest, gzip, p, n, newId)
  {
    var md5 := if n.File? then HashText(digest, n.content) else "";
    var existing := First(rows, (e: Entry) => e.path == p);
    if !(existing.Some? && (CoreUnchanged(existing.value, n) || existing.value.hash == md5)) {
      var any := First(rows, (e: Entry) => e.hash == md5);
      var same := First(rows, (e: Entry) => e.path == p && e.hash == md5);
      FirstNarrowed(rows, (e: Entry) => e.hash == md5, (e: Entry) => e.path == p && e.hash == md5, p);
    }
  }

  /**
   * When the first hit of `f` is a row of path `p`, narrowing `f` to rows of path `p`
   * finds the same row; and when no row passes `f`, none passes the narrowed test.
   */
  lemma {:induction false} FirstNarrowed(rows: seq<Entry>, f: Entry -> bool, g: Entry -> bool, p: Path)
    requires forall e :: g(e) <==> f(e) && e.path == p
    requires First(rows, f).None? || First(rows, f).value.path == p
    ensures First(rows, g) == First(rows, f)
    decreases |rows|
  {
    if rows != [] && !f(rows[0]) {
      FirstNarrowed(rows[1..], f, g, p);
    }
  }

  /**
   * As written, a file whose content some row of another path already holds is
   * collected as that other row, and so is every new directory once any directory
   * row exists (all directories share the empty hash): the backup then has no entry
   * for the path.
   */
  lemma CoreReuseDiscrepancy(digest: seq<byte> -> Digest, gzip: seq<byte> -> seq<byte>, c: seq<byte>)
    ensures var a := Entry(1, ["a"], |c|, |c|, 0, false, HashText(digest, c), 0);
      var n := File(c, 1);
      CoreStepAsWritten([a], digest, gzip, ["b"], n, 2) == Reuse(a) && a.path != ["b"] &&
      CoreStep([a], digest, gzip, ["b"], n, 2).Insert? && CoreStep([a], digest, gzip, ["b"], n, 2).entry.path == ["b"]
    ensures var d := Entry(1, ["a"], 0, 0, 0, true, "", 0);
      CoreStepAsWritten([d], digest, gzip, ["b"], Dir(0, 1), 2) == Reuse(d) &&
      CoreStep([d], digest, gzip, ["b"], Dir(0, 1), 2).Insert? && CoreStep([d], digest, gzip, ["b"], Dir(0, 1), 2).entry.path == ["b"]
  {
    var a := Entry(1, ["a"], |c|, |c|, 0, false, HashText(digest, c), 0);
    assert First([a], (e: Entry) => e.path == ["b"]) == None;
    assert First([a], (e: Entry) => e.hash == HashText(digest, c)) == Some(a);
    assert First([a], (e: Entry) => e.path == ["b"] && e.hash == HashText(digest, c)) == None;
    var d := Entry(1, ["a"], 0, 0, 0, true, "", 0);
    assert First([d], (e: Entry) => e.path == ["b"]) == None;
    assert First([d], (e: Entry) => e.hash == "") == Some(d);
    assert First([d], (e: Entry) => e.path == ["b"] && e.hash == "") == None;
  }

  /** Every row of `rows` is of its kind by hash. */
  predicate KindsByHash(rows: seq<Entry>)
  {
    forall i :: 0 <= i < |rows| ==> KindByHash(rows[i])
  }

  /** Deleting rows keeps every remaining row's kind by hash. */
  lemma KindsByHashWithoutIds(rows: seq<Entry>, ids: set<int>)
    requires KindsByHash(rows)
    ensures KindsByHash(WithoutIds(rows, ids))
  {
    var r := WithoutIds(rows, ids);
    forall i | 0 <= i < |r| ensures KindByHash(r[i]) {
      assert r[i] in rows;
    }
  }

  /**
   * The first pass of the core `restore` on one walked path, the root included: keep
   * it when its name is one of `CoreIgnoredFiles` or the caller ignores it; otherwise
   * delete it recursively when the backup has no entry for it or one of the other kind.
   */
  function CoreRestoreDecision(target: Tree, m: map<Path, Entry>, rootName: string,
                               ignored: Path -> bool, p: Path): (d: Deletion)
    ensures d != DeleteFile
    ensures d == DeleteTree <==> (p in target && Name(rootName, p) !in CoreIgnoredFiles && !ignored(p) &&
      (p !in m || m[p].isDirectory != target[p].Dir?))
  {
    if p !in target then Keep
    else if Name(rootName, p) in CoreIgnoredFiles || ignored(p) then Keep
    else if p !in m then DeleteTree
    else if m[p].isDirectory != target[p].Dir? then DeleteTree
    else Keep
  }

  /** `CoreRestoreDecision` as the function the first pass applies to every walked path. */
  function CoreDecide(target: Tree, m: map<Path, Entry>, rootName: string, ignored: Path -> bool): Path -> Deletion
  {
    p => CoreRestoreDecision(target, m, rootName, ignored, p)
  }

  /** The first pass of the core `restore`: walk every path, the root included. */
  method CoreFirstPass(target: Tree, m: map<Path, Entry>, rootName: string, ignored: Path -> bool)
    returns (cur: Tree)
    ensures cur == Pruned(target, target.Keys, CoreDecide(target, m, rootName, ignored))
  {
    cur := PruneWalk(target, target.Keys, CoreDecide(target, m, rootName, ignored));
  }

  /** A path survives the core first pass when it and each of its ancestors are kept. */
  lemma CorePrunedSurvivors(target: Tree, m: map<Path, Entry>, rootName: string, ignored: Path -> bool, q: Path)
    requires q in target
    requires forall k :: 0 <= k <= |q| ==> CoreRestoreDecision(target, m, rootName, ignored, q[..k]) == Keep
    ensures q in Pruned(target, target.Keys, CoreDecide(target, m, rootName, ignored))
  {
  }

  /**
   * A path the first pass does not skip and the backup lacks, or has with the other
   * kind, is gone with everything below it; with `p` the root, the whole target goes.
   */
  lemma CorePrunedRemovesSubtree(target: Tree, m: map<Path, Entry>, rootName: string, ignored: Path -> bool,
                                 p: Path, q: Path)
    requires p in target && Name(rootName, p) !in CoreIgnoredFiles && !ignored(p)
    requires p !in m || m[p].isDirectory != target[p].Dir?
    requires q in target && IsPrefix(p, q)
    ensures q !in Pruned(target, target.Keys, CoreDecide(target, m, rootName, ignored))
  {
    assert q[..|p|] == p;
  }

  /** The bytes the core `restore` reads from blob `raw` of file entry `e`: gunzipped when `gzip`, as they are otherwise. */
  function Decoded(e: Entry, raw: seq<byte>, gunzip: seq<byte> -> Option<seq<byte>>): Option<seq<byte>>
  {
    if e.compress == 1 then gunzip(raw) else Some(raw)
  }

  /** What the blob of file entry `e` reads as: nothing when it is gone or its gzip stream is broken. */
  function CoreRead(e: Entry, blobDir: Path, blobs: Blobs, gunzip: seq<byte> -> Option<seq<byte>>): Option<seq<byte>>
  {
    var f := BlobFile(blobDir, e.hash);
    if f in blobs then Decoded(e, blobs[f], gunzip) else None
  }

  /**
   * What the core `restore` promises of a file it writes for entry `e` whose blob exists:
   * the entry's size and time, and the bytes read from the blob when their MD5 is the
   * entry's hash, the gzip-decoded blob otherwise.
   */
  predicate CoreWritten(e: Entry, n: Node, blobDir: Path, blobs: Blobs, digest: seq<byte> -> Digest,
                        gunzip: seq<byte> -> Option<seq<byte>>)
  {
    !e.isDirectory && BlobFile(blobDir, e.hash) in blobs ==>
      var raw := blobs[BlobFile(blobDir, e.hash)];
      n.File? && |n.content| == e.size && n.lastModified == e.lastModified &&
      Decoded(e, raw, gunzip).Some? &&
      (HashText(digest, Decoded(e, raw, gunzip).value) == e.hash ==> n.content == Decoded(e, raw, gunzip).value) &&
      (HashText(digest, Decoded(e, raw, gunzip).value) != e.hash ==> gunzip(raw) == Some(n.content))
  }

  /**
   * One task of the core `restore` for entry `e` at a path that holds `cur`, with no
   * skip for unchanged files: a directory is created when missing (`mkdirs`, which
   * leaves an existing path as it is); a missing file is first created empty; when the
   * blob is gone nothing more happens; writing over a directory fails; a gzip stream
   * that cannot be decoded fails (nothing catches the `IOException`); otherwise the
   * file gets the decoded blob, or the gunzipped blob when the copy's hash disagrees,
   * must have the entry's size, and takes the entry's time.
   */
  function CoreRestoreTask(e: Entry, cur: Option<Node>, blobDir: Path, blobs: Blobs,
                           digest: seq<byte> -> Digest, gunzip: seq<byte> -> Option<seq<byte>>,
                           newDirLength: int, now: int): (t: Task)
    ensures e.isDirectory ==> t == if cur.None? then Write(Dir(newDirLength, now)) else Unchanged
    ensures !e.isDirectory && BlobFile(blobDir, e.hash) !in blobs ==>
      t == if cur.None? then Write(File([], now)) else Unchanged
    ensures !e.isDirectory && BlobFile(blobDir, e.hash) in blobs ==> t != Unchanged
    ensures !e.isDirectory && t.Write? ==> CoreWritten(e, t.node, blobDir, blobs, digest, gunzip)
    ensures !e.isDirectory && cur.Some? && cur.value.Dir? && BlobFile(blobDir, e.hash) in blobs ==> t == Fail
    ensures !e.isDirectory && BlobFile(blobDir, e.hash) in blobs && CoreRead(e, blobDir, blobs, gunzip).None? ==> t == Fail
    ensures var d := CoreRead(e, blobDir, blobs, gunzip);
      !e.isDirectory && (cur.None? || cur.value.File?) && d.Some? && HashText(digest, d.value) == e.hash ==>
        t == if |d.value| == e.size then Write(File(d.value, e.lastModified)) else Fail
    ensures var d := CoreRead(e, blobDir, blobs, gunzip);
      !e.isDirectory && d.Some? && HashText(digest, d.value) != e.hash && gunzip(blobs[BlobFile(blobDir, e.hash)]).None? ==>
        t == Fail
  {
    if e.isDirectory then
      if cur.None? then Write(Dir(newDirLength, now)) else Unchanged
    else if BlobFile(blobDir, e.hash) !in blobs then
      if cur.None? then Write(File([], now)) else Unchanged
    else if cur.Some? && cur.value.Dir? then Fail
    else
      var raw := blobs[BlobFile(blobDir, e.hash)];
      var data := Decoded(e, raw, gunzip);
      if data.None? then Fail
      else
        var content := if HashText(digest, data.value) == e.hash then data else gunzip(raw);
        if content.None? || |content.value| != e.size then Fail else Write(File(content.value, e.lastModified))
  }

  /**
   * Backup then restore gives the file back: a file the corrected step stores, with its
   * blob written, is restored over a missing path or a file with its content and time.
   */
  lemma CoreBackupRestoreRoundTrip(
    rows: seq<Entry>, blobDir: Path, blobs: Blobs, digest: seq<byte> -> Digest,
    gzip: seq<byte> -> seq<byte>, gunzip: seq<byte> -> Option<seq<byte>>,
    p: Path, n: Node, newId: int, cur: Option<Node>, newDirLength: int, now: int)
    requires CommonService.GzipRoundTrips(gzip, gunzip)
    requires n.File?
    requires CoreStep(rows, digest, gzip, p, n, newId).Insert?
    requires cur.None? || cur.value.File?
    ensures var s := CoreStep(rows, digest, gzip, p, n, newId);
      var blobs' := blobs[BlobFile(blobDir, s.entry.hash) := s.blob.value];
      CoreRestoreTask(s.entry, cur, blobDir, blobs', digest, gunzip, newDirLength, now) == Write(n)
  {
    var s := CoreStep(rows, digest, gzip, p, n, newId);
    var blobs' := blobs[BlobFile(blobDir, s.entry.hash) := s.blob.value];
    assert CoreRead(s.entry, blobDir, blobs', gunzip) == Some(n.content);
  }

  /**
   * One path of the core second pass: create the missing ancestors (failing when one is
   * a file), then run its restore task. Returns whether it succeeded and the new tree.
   */
  function CoreApplyRestore(cur: Tree, k: Path, e: Entry, blobDir: Path, blobs: Blobs,
                            digest: seq<byte> -> Digest, gunzip: seq<byte> -> Option<seq<byte>>,
                            newDirLength: int, now: int): (r: (bool, Tree))
    ensures forall q :: q in cur && q != k ==> q in r.1 && r.1[q] == cur[q]
    ensures r.0 ==> k in r.1
    ensures r.0 ==> CoreWritten(e, r.1[k], blobDir, blobs, digest, gunzip)
    ensures r.0 && e.isDirectory && k !in cur ==> r.1[k] == Dir(newDirLength, now)
    ensures k in cur && (e.isDirectory || BlobFile(blobDir, e.hash) !in blobs) ==> k in r.1 && r.1[k] == cur[k]
    ensures forall q :: q in r.1 ==> q in cur || q == k || q in Ancestors(k)
  {
    var anc := Ancestors(k);
    if exists q :: q in anc && q in cur && cur[q].File? then (false, cur)
    else
      var c1 := map q | q in cur.Keys + anc :: if q in cur then cur[q] else Dir(newDirLength, now);
      assert k in cur ==> c1[k] == cur[k] by {
        assert k !in anc;
      }
      match CoreRestoreTask(e, if k in c1 then Some(c1[k]) else None, blobDir, blobs, digest, gunzip, newDirLength, now)
        case Unchanged => (true, c1)
        case Write(n) => (true, c1[k := n])
        case Fail => (false, c1)
  }

  /** An entry whose restore leaves the path as the target had it: a directory, or a file with no blob. */
  predicate Untouched(e: Entry, blobDir: Path, blobs: Blobs)
  {
    e.isDirectory || BlobFile(blobDir, e.hash) !in blobs
  }

  /** Every path done and not failed is in the tree, written when its blob exists. */
  predicate PassWritten(m: map<Path, Entry>, keys: set<Path>, failed: set<Path>, after: Tree, blobDir: Path, blobs: Blobs,
                       digest: seq<byte> -> Digest, gunzip: seq<byte> -> Option<seq<byte>>)
  {
    forall k :: k in m && k !in keys && k !in failed ==> k in after && CoreWritten(m[k], after[k], blobDir, blobs, digest, gunzip)
  }

  /** Every path done whose restore leaves it untouched is as the pruned tree has it. */
  predicate PassLeaves(pruned: Tree, m: map<Path, Entry>, keys: set<Path>, after: Tree, blobDir: Path, blobs: Blobs)
  {
    forall k :: (k in m && k !in keys && k in pruned && Untouched(m[k], blobDir, blobs)) ==>
      k in after && after[k] == pruned[k]
  }

  /** The second pass of the core `restore` with the paths `keys` still to do. */
  predicate PassSoFar(pruned: Tree, m: map<Path, Entry>, keys: set<Path>, failed: set<Path>, after: Tree,
                      blobDir: Path, blobs: Blobs, digest: seq<byte> -> Digest, gunzip: seq<byte> -> Option<seq<byte>>)
  {
    keys <= m.Keys && failed <= m.Keys - keys &&
    PassWritten(m, keys, failed, after, blobDir, blobs, digest, gunzip) && CommonService.PassKeeps(pruned, m, keys, after) &&
    PassLeaves(pruned, m, keys, after, blobDir, blobs) && CommonService.PassAddsOnly(pruned, m, after)
  }

  /** One task of the second pass, with the properties `CoreApplyRestore` promises, keeps `PassSoFar`. */
  lemma PassStep(pruned: Tree, m: map<Path, Entry>, keys: set<Path>, failed: set<Path>, after: Tree,
                 blobDir: Path, blobs: Blobs, digest: seq<byte> -> Digest, gunzip: seq<byte> -> Option<seq<byte>>,
                 k: Path, res: (bool, Tree))
    requires PassSoFar(pruned, m, keys, failed, after, blobDir, blobs, digest, gunzip) && k in keys
    requires forall q :: q in after && q != k ==> q in res.1 && res.1[q] == after[q]
    requires res.0 ==> k in res.1 && CoreWritten(m[k], res.1[k], blobDir, blobs, digest, gunzip)
    requires k in after && Untouched(m[k], blobDir, blobs) ==> k in res.1 && res.1[k] == after[k]
    requires forall q :: q in res.1 ==> q in after || q == k || q in Ancestors(k)
    ensures PassSoFar(pruned, m, keys - {k}, if res.0 then failed else failed + {k}, res.1, blobDir, blobs, digest, gunzip)
  {
    var keys', failed', after' := keys - {k}, (if res.0 then failed else failed + {k}), res.1;
    assert keys' <= m.Keys && failed' <= m.Keys - keys';
    PassWrittenStep(m, keys, failed, after, blobDir, blobs, digest, gunzip, k, res);
    CommonService.PassKeepsStep(pruned, m, keys, after, k, res.1);
    PassLeavesStep(pruned, m, keys, after, blobDir, blobs, k, res.1);
    CommonService.PassAddsOnlyStep(pruned, m, after, k, res.1);
  }

  lemma PassWrittenStep(m: map<Path, Entry>, keys: set<Path>, failed: set<Path>, after: Tree,
                        blobDir: Path, blobs: Blobs, digest: seq<byte> -> Digest, gunzip: seq<byte> -> Option<seq<byte>>,
                        k: Path, res: (bool, Tree))
    requires PassWritten(m, keys, failed, after, blobDir, blobs, digest, gunzip) && k in keys && k in m
    requires forall q :: q in after && q != k ==> q in res.1 && res.1[q] == after[q]
    requires res.0 ==> k in res.1 && CoreWritten(m[k], res.1[k], blobDir, blobs, digest, gunzip)
    ensures PassWritten(m, keys - {k}, if res.0 then failed else failed + {k}, res.1, blobDir, blobs, digest, gunzip)
  {
    var failed' := if res.0 then failed else failed + {k};
    forall j | j in m && j !in keys - {k} && j !in failed'
      ensures j in res.1 && CoreWritten(m[j], res.1[j], blobDir, blobs, digest, gunzip)
    {
      if j != k {
        assert j !in keys && j !in failed;
      }
    }
  }

  lemma PassLeavesStep(pruned: Tree, m: map<Path, Entry>, keys: set<Path>, after: Tree, blobDir: Path, blobs: Blobs,
                       k: Path, after': Tree)
    requires PassLeaves(pruned, m, keys, after, blobDir, blobs) && CommonService.PassKeeps(pruned, m, keys, after) && k in keys
    requires forall q :: q in after && q != k ==> q in after' && after'[q] == after[q]
    requires k in m && k in after && Untouched(m[k], blobDir, blobs) ==> k in after' && after'[k] == after[k]
    ensures PassLeaves(pruned, m, keys - {k}, after', blobDir, blobs)
  {
    forall j | j in m && j !in keys - {k} && j in pruned && Untouched(m[j], blobDir, blobs)
      ensures j in after' && after'[j] == pruned[j]
    {
      if j == k {
        assert after[k] == pruned[k];
      }
    }
  }

  /** No two rows share a hash. */
  predicate HashesUnique(rows: seq<Entry>)
  {
    forall i, j :: 0 <= i < |rows| && 0 <= j < |rows| && rows[i].hash == rows[j].hash ==> i == j
  }

  /**
   * While no two rows share a hash, the blobs the core `deleteBackup` deletes as written
   * (every unshared entry's, line 264) are exactly those no remaining row refers to.
   */
  lemma DeletionsAgreeWhenHashesUnique(blobDir: Path, rows: seq<Entry>, unshared: seq<Entry>)
    requires HashesUnique(rows) && forall u :: u in unshared ==> u in rows
    ensures DeletedBlobs(blobDir, unshared, WithoutIds(rows, IdsOf(unshared))) == DeletedBlobsAsWritten(blobDir, unshared)
  {
    var remaining := WithoutIds(rows, IdsOf(unshared));
    forall u, f | u in unshared && f in remaining
      ensures f.hash != u.hash
    {
      assert f.id !in IdsOf(unshared);
    }
  }

  /**
   * The corrected step lets rows of different paths share a hash, and then the
   * unconditional deletion removes a blob a remaining row still needs.
   */
  lemma CoreDeleteAsWrittenBreaks(blobDir: Path, digest: seq<byte> -> Digest, gzip: seq<byte> -> seq<byte>, c: seq<byte>)
    ensures var a := Entry(1, ["a"], |c|, |c|, 0, false, HashText(digest, c), 0);
      var b := CoreStep([a], digest, gzip, ["b"], File(c, 1), 2).entry;
      b.hash == a.hash && b != a &&
      BlobFile(blobDir, a.hash) in DeletedBlobsAsWritten(blobDir, [b]) &&
      BlobFile(blobDir, a.hash) !in DeletedBlobs(blobDir, [b], [a])
  {
    CoreReuseDiscrepancy(digest, gzip, c);
    var a := Entry(1, ["a"], |c|, |c|, 0, false, HashText(digest, c), 0);
    var b := CoreStep([a], digest, gzip, ["b"], File(c, 1), 2).entry;
    assert b in [b];
  }

  /** A file row stored as the core stores one, reading back bytes of its hash and size. */
  predicate CoreReadsBack(e: Entry, blobDir: Path, blobs: Blobs, digest: seq<byte> -> Digest,
                          gunzip: seq<byte> -> Option<seq<byte>>)
  {
    !e.isDirectory ==>
      e.compress == (if e.size > 1024 then 1 else 0) &&
      var d := CoreRead(e, blobDir, blobs, gunzip);
      d.Some? && HashText(digest, d.value) == e.hash && |d.value| == e.size
  }

  /**
   * The core catalog reads back faithfully: every file row reads back bytes of its hash
   * and size, and a file row with the MD5 of one of the contents `cs` reads back that content.
   */
  predicate CoreFaithful(rows: seq<Entry>, blobDir: Path, blobs: Blobs, digest: seq<byte> -> Digest,
                         gunzip: seq<byte> -> Option<seq<byte>>, cs: set<seq<byte>>)
  {
    (forall e :: e in rows ==> CoreReadsBack(e, blobDir, blobs, digest, gunzip)) &&
    (forall e, c :: e in rows && !e.isDirectory && c in cs && e.hash == HashText(digest, c) ==>
      CoreRead(e, blobDir, blobs, gunzip) == Some(c))
  }

  /**
   * The row collected for node `n` keeps it: `n` is a directory, or the row reads back
   * `n`'s content, or the row was reused for agreeing with `n` in size and time.
   */
  predicate CoreHolds(e: Entry, n: Node, blobDir: Path, blobs: Blobs, gunzip: seq<byte> -> Option<seq<byte>>)
  {
    n.Dir? || CoreRead(e, blobDir, blobs, gunzip) == Some(n.content) ||
    (e.size == Length(n) && e.lastModified == n.lastModified)
  }

  /** Every row of `list` keeps the node of `tree` at its path. */
  predicate CoreAllHold(list: seq<Entry>, tree: Tree, blobDir: Path, blobs: Blobs, gunzip: seq<byte> -> Option<seq<byte>>)
  {
    forall e :: e in list ==> e.path in tree && CoreHolds(e, tree[e.path], blobDir, blobs, gunzip)
  }

  /** The blob written for one file leaves every existing file row reading back what it read before. */
  predicate CoreReadsKept(rows: seq<Entry>, blobDir: Path, blobs: Blobs, blobs': Blobs,
                          gunzip: seq<byte> -> Option<seq<byte>>)
  {
    forall e :: e in rows && !e.isDirectory ==> CoreRead(e, blobDir, blobs', gunzip) == CoreRead(e, blobDir, blobs, gunzip)
  }

  /** A row the corrected step reuses for node `n` keeps `n`: it agrees in size and time, or holds `n`'s MD5. */
  lemma CoreReuseHolds(rows: seq<Entry>, blobDir: Path, blobs: Blobs, digest: seq<byte> -> Digest,
                       gzip: seq<byte> -> seq<byte>, gunzip: seq<byte> -> Option<seq<byte>>,
                       p: Path, n: Node, newId: int, cs: set<seq<byte>>)
    requires CoreFaithful(rows, blobDir, blobs, digest, gunzip, cs) && KindsByHash(rows)
    requires n.File? ==> n.content in cs
    requires CoreStep(rows, digest, gzip, p, n, newId).Reuse?
    ensures CoreHolds(CoreStep(rows, digest, gzip, p, n, newId).entry, n, blobDir, blobs, gunzip)
  {
    var e := CoreStep(rows, digest, gzip, p, n, newId).entry;
    if n.File? && !(e.lastModified == n.lastModified && e.size == Length(n)) {
      var i :| 0 <= i < |rows| && rows[i] == e;
      assert KindByHash(rows[i]);
      assert e.hash == HashText(digest, n.content);
    }
  }

  /**
   * The blob the corrected step writes for a new file row leaves every file row reading
   * back what it read before, and the catalog with the new row stays faithful.
   */
  lemma CoreInsertKeeps(rows: seq<Entry>, blobDir: Path, blobs: Blobs, digest: seq<byte> -> Digest,
                        gzip: seq<byte> -> seq<byte>, gunzip: seq<byte> -> Option<seq<byte>>,
                        e: Entry, c: seq<byte>, data: seq<byte>, cs: set<seq<byte>>)
    requires CommonService.GzipRoundTrips(gzip, gunzip) && CommonService.NoCollision(digest, cs)
    requires CoreFaithful(rows, blobDir, blobs, digest, gunzip, cs) && c in cs
    requires !e.isDirectory && e.hash == HashText(digest, c) && e.size == |c|
    requires e.compress == (if |c| > 1024 then 1 else 0) && data == (if |c| > 1024 then gzip(c) else c)
    ensures var blobs' := blobs[BlobFile(blobDir, e.hash) := data];
      CoreFaithful(rows + [e], blobDir, blobs', digest, gunzip, cs) &&
      CoreRead(e, blobDir, blobs', gunzip) == Some(c) &&
      CoreReadsKept(rows, blobDir, blobs, blobs', gunzip)
  {
    var f := BlobFile(blobDir, e.hash);
    var blobs' := blobs[f := data];
    forall x | x in rows && !x.isDirectory
      ensures CoreRead(x, blobDir, blobs', gunzip) == CoreRead(x, blobDir, blobs, gunzip)
    {
      if BlobFile(blobDir, x.hash) == f {
        BlobFileInjective(blobDir, x.hash, e.hash);
        assert CoreRead(x, blobDir, blobs, gunzip) == Some(c);
      }
    }
    assert CoreRead(e, blobDir, blobs', gunzip) == Some(c);
    var rows' := rows + [e];
    forall x, c' | x in rows' && !x.isDirectory && c' in cs && x.hash == HashText(digest, c')
      ensures CoreRead(x, blobDir, blobs', gunzip) == Some(c')
    {
      if x !in rows {
        assert x == e && c' == c;
      }
    }
    assert forall x :: x in rows' ==> CoreReadsBack(x, blobDir, blobs', digest, gunzip) by {
      forall x | x in rows' ensures CoreReadsBack(x, blobDir, blobs', digest, gunzip) {
        if x in rows && !x.isDirectory {
          assert CoreRead(x, blobDir, blobs', gunzip) == CoreRead(x, blobDir, blobs, gunzip);
        }
      }
    }
  }

  /**
   * One step of the core `createBackup` (the corrected `CoreStep`) keeps the catalog
   * faithful to the walked contents and collects a row that keeps its node; the blob it
   * may write changes what no existing file row reads back, because no two walked
   * contents collide and gzip round-trips.
   */
  lemma CoreStepKeepsFaithful(rows: seq<Entry>, blobDir: Path, blobs: Blobs, digest: seq<byte> -> Digest,
                              gzip: seq<byte> -> seq<byte>, gunzip: seq<byte> -> Option<seq<byte>>,
                              p: Path, n: Node, newId: int, cs: set<seq<byte>>)
    requires CommonService.GzipRoundTrips(gzip, gunzip) && CommonService.NoCollision(digest, cs)
    requires CoreFaithful(rows, blobDir, blobs, digest, gunzip, cs) && KindsByHash(rows)
    requires n.File? ==> n.content in cs
    ensures var s := CoreStep(rows, digest, gzip, p, n, newId);
      var rows' := if s.Insert? then rows + [s.entry] else rows;
      var blobs' := if s.Insert? && s.blob.Some? then blobs[BlobFile(blobDir, s.entry.hash) := s.blob.value] else blobs;
      CoreFaithful(rows', blobDir, blobs', digest, gunzip, cs) &&
      CoreHolds(s.entry, n, blobDir, blobs', gunzip) &&
      CoreReadsKept(rows, blobDir, blobs, blobs', gunzip)
  {
    var s := CoreStep(rows, digest, gzip, p, n, newId);
    if s.Reuse? {
      CoreReuseHolds(rows, blobDir, blobs, digest, gzip, gunzip, p, n, newId, cs);
    } else if n.File? {
      CoreInsertKeeps(rows, blobDir, blobs, digest, gzip, gunzip, s.entry, n.content, s.blob.value, cs);
    }
  }

  /** Rows that keep their nodes go on keeping them when no listed row reads back differently. */
  lemma CoreAllHoldKept(list: seq<Entry>, rows: seq<Entry>, all: set<Path>, tree: Tree, blobDir: Path, blobs: Blobs,
                        blobs': Blobs, gunzip: seq<byte> -> Option<seq<byte>>)
    requires CommonService.Listed(list, rows, all, tree) && CoreAllHold(list, tree, blobDir, blobs, gunzip)
    requires CoreReadsKept(rows, blobDir, blobs, blobs', gunzip)
    ensures CoreAllHold(list, tree, blobDir, blobs', gunzip)
  {
    forall e | e in list ensures CoreHolds(e, tree[e.path], blobDir, blobs', gunzip) {
      if !e.isDirectory {
        assert CoreRead(e, blobDir, blobs', gunzip) == CoreRead(e, blobDir, blobs, gunzip);
      }
    }
  }

  /** Every row linked to backup `id` reads back faithfully and keeps the node of `tree` at its path. */
  predicate CoreLinkedHold(rows: seq<Entry>, links: set<Link>, id: int, tree: Tree, blobDir: Path, blobs: Blobs,
                           digest: seq<byte> -> Digest, gunzip: seq<byte> -> Option<seq<byte>>)
  {
    forall e :: e in rows && Link(id, e.id) in links ==>
      CoreReadsBack(e, blobDir, blobs, digest, gunzip) && e.path in tree &&
      e.isDirectory == tree[e.path].Dir? && CoreHolds(e, tree[e.path], blobDir, blobs, gunzip)
  }

  /**
   * The rows the core `createBackup` collects under a fresh backup id hold when the
   * catalog reads back faithfully and each collected row keeps its node.
   */
  lemma CoreCollectedHold(rows: seq<Entry>, walked: seq<Entry>, oldLinks: set<Link>, links: set<Link>, id: int,
                          tree: Tree, blobDir: Path, blobs: Blobs, digest: seq<byte> -> Digest,
                          gunzip: seq<byte> -> Option<seq<byte>>)
    requires CommonService.EntryIdsIncreasing(rows) && links == oldLinks + CommonService.LinksOf(id, walked)
    requires forall l :: l in oldLinks ==> l.backup != id
    requires forall e :: e in walked ==> e in rows && e.path in tree && e.isDirectory == tree[e.path].Dir?
    requires forall e :: e in rows ==> CoreReadsBack(e, blobDir, blobs, digest, gunzip)
    requires CoreAllHold(walked, tree, blobDir, blobs, gunzip)
    ensures CoreLinkedHold(rows, links, id, tree, blobDir, blobs, digest, gunzip)
  {
    forall e | e in rows && Link(id, e.id) in links
      ensures CoreReadsBack(e, blobDir, blobs, digest, gunzip) && e.path in tree
      ensures e.isDirectory == tree[e.path].Dir? && CoreHolds(e, tree[e.path], blobDir, blobs, gunzip)
    {
      CommonService.LinkedAreCollected(rows, walked, oldLinks, id, e);
    }
  }

  /** A file the core restores from a row that reads back faithfully and keeps `n` holds `n`'s content or time and size. */
  lemma CoreRestoredHolds(e: Entry, n: Node, a: Node, blobDir: Path, blobs: Blobs, digest: seq<byte> -> Digest,
                          gunzip: seq<byte> -> Option<seq<byte>>)
    requires !e.isDirectory && n.File?
    requires CoreReadsBack(e, blobDir, blobs, digest, gunzip) && CoreHolds(e, n, blobDir, blobs, gunzip)
    requires CoreWritten(e, a, blobDir, blobs, digest, gunzip)
    ensures (a.File? && a.content == n.content) || (a.lastModified == n.lastModified && Length(a) == Length(n))
  {
  }

  /**
   * When the rows of a backup hold, every file path the core `restore` writes from them
   * holds the backed-up content, or the backed-up time and size.
   */
  lemma CoreRestoredFiles(tree: Tree, rows: seq<Entry>, links: set<Link>, id: int, linked: seq<Entry>, after: Tree,
                          ignored: Path -> bool, blobDir: Path, blobs: Blobs, digest: seq<byte> -> Digest,
                          gunzip: seq<byte> -> Option<seq<byte>>)
    requires forall e :: e in linked <==> e in rows && Link(id, e.id) in links
    requires CoreLinkedHold(rows, links, id, tree, blobDir, blobs, digest, gunzip)
    requires forall k :: k in RestoreMap(linked, ignored) ==> k in after
    requires forall k :: k in RestoreMap(linked, ignored) ==>
      CoreWritten(RestoreMap(linked, ignored)[k], after[k], blobDir, blobs, digest, gunzip)
    ensures forall e :: e in rows && Link(id, e.id) in links && !ignored(e.path) && tree[e.path].File? ==>
      e.path in after &&
      ((after[e.path].File? && after[e.path].content == tree[e.path].content) ||
       (after[e.path].lastModified == tree[e.path].lastModified && Length(after[e.path]) == Length(tree[e.path])))
  {
    var m := RestoreMap(linked, ignored);
    forall e | e in rows && Link(id, e.id) in links && !ignored(e.path) && tree[e.path].File?
      ensures e.path in after
      ensures (after[e.path].File? && after[e.path].content == tree[e.path].content) ||
        (after[e.path].lastModified == tree[e.path].lastModified && Length(after[e.path]) == Length(tree[e.path]))
    {
      var q := e.path;
      assert e in linked;
      var d := m[q];
      assert d in linked && d.path == q;
      CoreRestoredHolds(d, tree[q], after[q], blobDir, blobs, digest, gunzip);
    }
  }

  /** The core `BackupDatabaseService`: its tables and its blob directory. */
  class Service {
    const blobDir: Path
    const digest: seq<byte> -> Digest
    const gzip: seq<byte> -> seq<byte>
    const gunzip: seq<byte> -> Option<seq<byte>>

    var entries: seq<Entry>
    var backups: seq<BackupRow>
    var links: set<Link>
    var blobs: Blobs
    var nextEntryId: int
    var nextBackupId: int

    /** Ids are fresh and increasing, links refer to existing rows, and a row's hash tells its kind. */
    ghost predicate Valid()
      reads this
    {
      CommonService.EntryIdsIncreasing(entries) && (forall e :: e in entries ==> e.id < nextEntryId) &&
      KindsByHash(entries) &&
      IdsIncreasing(backups) && (forall b :: b in backups ==> b.id < nextBackupId) &&
      (forall l :: l in links ==> l.backup in CommonService.BackupIds(backups) && l.entry in IdsOf(entries))
    }

    /** The tables, without the blob store. */
    function Rows(): (seq<Entry>, set<Link>, seq<BackupRow>, int, int)
      reads this
    {
      (entries, links, backups, nextEntryId, nextBackupId)
    }

    /** What deleting entry rows leaves alone. */
    function Kept(): (Blobs, seq<BackupRow>, int, int)
      reads this
    {
      (blobs, backups, nextEntryId, nextBackupId)
    }

    constructor(blobDir: Path, digest: seq<byte> -> Digest, gzip: seq<byte> -> seq<byte>, gunzip: seq<byte> -> Option<seq<byte>>)
      ensures Valid()
      ensures this.blobDir == blobDir && this.digest == digest && this.gzip == gzip && this.gunzip == gunzip
      ensures entries == [] && backups == [] && links == {} && blobs == map[]
    {
      this.blobDir := blobDir;
      this.digest := digest;
      this.gzip := gzip;
      this.gunzip := gunzip;
      entries := [];
      backups := [];
      links := {};
      blobs := map[];
      nextEntryId := 1;
      nextBackupId := 1;
    }

    /** `getBackup`: the row with that id and its linked entries, if there is one. */
    function GetBackup(id: int): (r: Option<Backup>)
      reads this
      ensures r.Some? <==> id in CommonService.BackupIds(backups)
      ensures r.Some? ==> (r.value.row in backups && r.value.row.id == id &&
        forall e :: e in r.value.entries <==> e in entries && Link(id, e.id) in links)
    {
      var found := First(backups, (b: BackupRow) => b.id == id);
      if found.Some? then Some(Backup(found.value, LinkedEntries(entries, links, id))) else None
    }

    /** `listBackups`: a page of backups, newest first, with SQLite's `LIMIT`/`OFFSET`. */
    function ListBackups(offset: int, limit: int): (r: seq<Backup>)
      reads this
      ensures var page := ListPage(backups, offset, limit);
        |r| == |page| && forall i :: 0 <= i < |r| ==>
          r[i].row == page[i] && r[i].entries == LinkedEntries(entries, links, page[i].id)
    {
      var page := ListPage(backups, offset, limit);
      var rows := entries;
      var ls := links;
      seq(|page|, i requires 0 <= i < |page| => Backup(page[i], LinkedEntries(rows, ls, page[i].id)))
    }

    /** The per-file task of the core `createBackup`: apply `CoreStep` to the tables and the blob directory. */
    method BackupFile(p: Path, n: Node) returns (e: Entry, s: Step)
      requires Valid()
      modifies this
      ensures Valid()
      ensures s == CoreStep(old(entries), digest, gzip, p, n, old(nextEntryId))
      ensures e == s.entry
      ensures s.Reuse? ==> entries == old(entries) && blobs == old(blobs) && nextEntryId == old(nextEntryId)
      ensures s.Insert? ==> entries == old(entries) + [e] && nextEntryId == old(nextEntryId) + 1
      ensures s.Insert? ==> blobs == if s.blob.Some? then old(blobs)[BlobFile(blobDir, e.hash) := s.blob.value] else old(blobs)
      ensures backups == old(backups) && links == old(links) && nextBackupId == old(nextBackupId)
      ensures e in entries && e.path == p && e.isDirectory == n.Dir?
      ensures entries == old(entries) || entries == old(entries) + [e]
    {
      s := CoreStep(entries, digest, gzip, p, n, nextEntryId);
      e := s.entry;
      if s.Insert? {
        if s.blob.Some? {
          PutBlob(BlobFile(blobDir, e.hash), s.blob.value);
        }
        InsertEntry(e);
      }
    }

    /** Writes the blob file `f`; the tables stay as they are. */
    method PutBlob(f: Path, data: seq<byte>)
      requires Valid()
      modifies this
      ensures Valid()
      ensures blobs == old(blobs)[f := data] && Rows() == old(Rows())
    {
      blobs := blobs[f := data];
    }

    /** `BackupEntryTable.insert`: the new row takes the next id. */
    method InsertEntry(e: Entry)
      requires Valid()
      requires e.id == nextEntryId && KindByHash(e)
      modifies this
      ensures Valid()
      ensures entries == old(entries) + [e] && nextEntryId == old(nextEntryId) + 1
      ensures blobs == old(blobs) && backups == old(backups) && links == old(links) && nextBackupId == old(nextBackupId)
    {
      ghost var rows := entries;
      entries := entries + [e];
      nextEntryId := nextEntryId + 1;
      assert IdsOf(rows) <= IdsOf(entries);
    }

    /**
     * The walk of the core `createBackup`: one `BackupFile` per kept path, in whatever
     * order the tasks run. Returns the entries collected, one per path, each of its
     * path and kind.
     */
    method BackupWalked(tree: Tree, all: set<Path>) returns (list: seq<Entry>)
      requires Valid()
      requires all <= tree.Keys
      modifies this
      ensures Valid()
      ensures backups == old(backups) && links == old(links) && nextBackupId == old(nextBackupId)
      ensures |old(entries)| <= |entries| && entries[..|old(entries)|] == old(entries)
      ensures forall e :: e in list ==> e in entries && e.path in all && e.isDirectory == tree[e.path].Dir?
      ensures forall q :: q in all ==> exists e :: e in list && e.path == q && e.isDirectory == tree[q].Dir?
      ensures var cs := CommonService.FileContents(tree, all);
        CommonService.GzipRoundTrips(gzip, gunzip) && CommonService.NoCollision(digest, cs) &&
        old(CoreFaithful(entries, blobDir, blobs, digest, gunzip, cs)) ==>
        CoreFaithful(entries, blobDir, blobs, digest, gunzip, cs) && CoreAllHold(list, tree, blobDir, blobs, gunzip)
    {
      var todo := all;
      list := [];
      ghost var cover: map<Path, Entry> := map[];
      ghost var cs := CommonService.FileContents(tree, all);
      ghost var faithful := CommonService.GzipRoundTrips(gzip, gunzip) && CommonService.NoCollision(digest, cs) &&
        CoreFaithful(entries, blobDir, blobs, digest, gunzip, cs);
      while todo != {}
        invariant Valid()
        invariant faithful ==> CoreFaithful(entries, blobDir, blobs, digest, gunzip, cs)
        invariant faithful ==> CoreAllHold(list, tree, blobDir, blobs, gunzip)
        invariant todo <= all && forall q :: q in all ==> q in cover || q in todo
        invariant backups == old(backups) && links == old(links) && nextBackupId == old(nextBackupId)
        invariant |old(entries)| <= |entries| && entries[..|old(entries)|] == old(entries)
        invariant CommonService.Listed(list, entries, all, tree)
        invariant CommonService.Covered(cover, list, tree)
        decreases |todo|
      {
        var p :| p in todo;
        list, cover := WalkStep(tree, all, p, list, old(entries), cover);
        todo := todo - {p};
      }
      CommonService.CoveredAll(cover, list, tree, all);
    }

    /** `BackupFile`, as the walk needs it: the entry made or reused, and only appended rows. */
    method BackupOne(p: Path, n: Node, ghost cs: set<seq<byte>>) returns (e: Entry)
      requires Valid()
      modifies this
      ensures Valid()
      ensures backups == old(backups) && links == old(links) && nextBackupId == old(nextBackupId)
      ensures e in entries && e.path == p && e.isDirectory == n.Dir?
      ensures entries == old(entries) || entries == old(entries) + [e]
      ensures
        CommonService.GzipRoundTrips(gzip, gunzip) && CommonService.NoCollision(digest, cs) && (n.File? ==> n.content in cs) &&
        old(CoreFaithful(entries, blobDir, blobs, digest, gunzip, cs)) ==>
        CoreFaithful(entries, blobDir, blobs, digest, gunzip, cs) && CoreHolds(e, n, blobDir, blobs, gunzip) &&
        CoreReadsKept(old(entries), blobDir, old(blobs), blobs, gunzip)
    {
      var s;
      e, s := BackupFile(p, n);
      if CommonService.GzipRoundTrips(gzip, gunzip) && CommonService.NoCollision(digest, cs) && (n.File? ==> n.content in cs) &&
         old(CoreFaithful(entries, blobDir, blobs, digest, gunzip, cs)) {
        CoreStepKeepsFaithful(old(entries), blobDir, old(blobs), digest, gzip, gunzip, p, n, old(nextEntryId), cs);
      }
    }

    /** One task of the walk: back up `p` and record its entry. */
    method WalkStep(tree: Tree, all: set<Path>, p: Path, list: seq<Entry>, ghost rows0: seq<Entry>,
                    ghost cover: map<Path, Entry>)
      returns (list': seq<Entry>, ghost cover': map<Path, Entry>)
      requires Valid() && p in all && p in tree
      requires |rows0| <= |entries| && entries[..|rows0|] == rows0
      requires CommonService.Listed(list, entries, all, tree) && CommonService.Covered(cover, list, tree)
      modifies this
      ensures Valid()
      ensures backups == old(backups) && links == old(links) && nextBackupId == old(nextBackupId)
      ensures |rows0| <= |entries| && entries[..|rows0|] == rows0
      ensures CommonService.Listed(list', entries, all, tree) && CommonService.Covered(cover', list', tree)
      ensures forall q :: q in cover ==> q in cover'
      ensures p in cover'
      ensures var cs := CommonService.FileContents(tree, all);
        CommonService.GzipRoundTrips(gzip, gunzip) && CommonService.NoCollision(digest, cs) &&
        old(CoreFaithful(entries, blobDir, blobs, digest, gunzip, cs)) && old(CoreAllHold(list, tree, blobDir, blobs, gunzip)) ==>
        CoreFaithful(entries, blobDir, blobs, digest, gunzip, cs) && CoreAllHold(list', tree, blobDir, blobs, gunzip)
    {
      ghost var cs := CommonService.FileContents(tree, all);
      var e := BackupOne(p, tree[p], cs);
      if CommonService.GzipRoundTrips(gzip, gunzip) && CommonService.NoCollision(digest, cs) &&
         old(CoreFaithful(entries, blobDir, blobs, digest, gunzip, cs)) && old(CoreAllHold(list, tree, blobDir, blobs, gunzip)) {
        CoreAllHoldKept(list, old(entries), all, tree, blobDir, old(blobs), blobs, gunzip);
      }
      CommonService.ListedGrows(list, old(entries), entries, all, tree, e);
      CommonService.CoveredGrows(cover, list, tree, p, e);
      list' := list + [e];
      cover' := cover[p := e];
      assert entries[..|rows0|] == old(entries)[..|rows0|];
    }

    /**
     * The core `createBackup` of the tree `tree` found under `root` (`rootName` is the
     * root's own name): every walked path, the root included, is linked to an entry of
     * its path and kind, and the backup row carries the sums over them.
     */
    method CreateBackup(root: Path, rootName: string, tree: Tree, comment: string, accept: Path -> bool, now: int)
      returns (r: BackupResult, ghost walked: seq<Entry>)
      requires Valid()
      modifies this
      ensures Valid()
      ensures |old(entries)| <= |entries| && entries[..|old(entries)|] == old(entries)
      ensures var id := old(nextBackupId);
        var all := CoreWalked(tree, rootName, root, blobDir, accept);
        r.backupId == id &&
        backups == old(backups) + [BackupRow(id, r.totalSize, r.compressedSize, now, comment, false)] &&
        links == old(links) + CommonService.LinksOf(id, walked) &&
        r.totalSize == SumSize(walked) && r.compressedSize == SumZipped(walked) &&
        r.addedSize == SumZipped(entries[|old(entries)|..]) &&
        (forall e :: e in walked ==> (e in entries && e.path in all && e.isDirectory == tree[e.path].Dir?)) &&
        (forall q :: q in all ==> exists e :: e in walked && e.path == q && e.isDirectory == tree[q].Dir?)
      ensures var cs := CommonService.FileContents(tree, CoreWalked(tree, rootName, root, blobDir, accept));
        CommonService.GzipRoundTrips(gzip, gunzip) && CommonService.NoCollision(digest, cs) &&
        old(CoreFaithful(entries, blobDir, blobs, digest, gunzip, cs)) ==>
        CoreFaithful(entries, blobDir, blobs, digest, gunzip, cs) && CoreAllHold(walked, tree, blobDir, blobs, gunzip)
    {
      var before := |entries|;
      var list := BackupWalked(tree, CoreWalked(tree, rootName, root, blobDir, accept));
      var id := InsertBackup(list, now, comment);
      walked := list;
      r := BackupResult(id, SumSize(list), SumZipped(list), SumZipped(entries[before..]));
    }

    /** The transaction that inserts the backup row and links it to the collected entries. */
    method InsertBackup(list: seq<Entry>, now: int, comment: string) returns (id: int)
      requires Valid()
      requires forall e :: e in list ==> e in entries
      modifies this
      ensures Valid()
      ensures id == old(nextBackupId) && nextBackupId == id + 1
      ensures backups == old(backups) + [BackupRow(id, SumSize(list), SumZipped(list), now, comment, false)]
      ensures links == old(links) + CommonService.LinksOf(id, list)
      ensures entries == old(entries) && blobs == old(blobs) && nextEntryId == old(nextEntryId)
    {
      id := nextBackupId;
      backups := backups + [BackupRow(id, SumSize(list), SumZipped(list), now, comment, false)];
      nextBackupId := id + 1;
      links := links + CommonService.LinksOf(id, list);
    }
  
    /**
     * The core `deleteBackup`: fails when there is no such backup; otherwise deletes
     * every entry of it that no other backup links, with their links, the blobs no
     * remaining row refers to, and the backup row with its links.
     */
    method DeleteBackup(id: int) returns (err: Option<Error>)
      requires Valid()
      modifies this
      ensures Valid()
      ensures old(GetBackup(id)).None? <==> err == Some(BackupNotFound)
      ensures err.Some? ==> (entries == old(entries) && links == old(links) && blobs == old(blobs) &&
        backups == old(backups))
      ensures old(GetBackup(id)).Some? ==>
        var unshared := UnsharedOf(old(GetBackup(id)).value.entries, old(links), id);
        var ids := IdsOf(unshared);
        entries == WithoutIds(old(entries), ids) &&
        links == LinksAfterDelete(old(links), id, ids) &&
        blobs == CommonService.WithoutFiles(old(blobs), DeletedBlobs(blobDir, unshared, entries)) &&
        backups == WithoutBackup(old(backups), id)
      ensures nextEntryId == old(nextEntryId) && nextBackupId == old(nextBackupId)
    {
      var b := GetBackup(id);
      if b.None? {
        return Some(BackupNotFound);
      }
      DeleteFound(b.value);
      err := None;
    }

    /** The deletion proper, for a backup `b` that was found. */
    method DeleteFound(b: Backup)
      requires Valid()
      modifies this
      ensures Valid()
      ensures var unshared := UnsharedOf(b.entries, old(links), b.row.id);
        var ids := IdsOf(unshared);
        entries == WithoutIds(old(entries), ids) &&
        links == LinksAfterDelete(old(links), b.row.id, ids) &&
        blobs == CommonService.WithoutFiles(old(blobs), DeletedBlobs(blobDir, unshared, entries)) &&
        backups == WithoutBackup(old(backups), b.row.id)
      ensures nextEntryId == old(nextEntryId) && nextBackupId == old(nextBackupId)
    {
      var unshared := DeleteRows(b);
      DeleteUnreferencedBlobs(unshared);
      DropBackupRow(b.row.id);
    }

    /**
     * The core `deleteBackup` of a found backup as written: each entry no other backup
     * links loses its blob (line 264, unconditionally) and its row, then the backup row
     * goes; link rows follow by cascade.
     */
    method DeleteFoundAsWritten(b: Backup)
      requires Valid()
      modifies this
      ensures Valid()
      ensures var unshared := UnsharedOf(b.entries, old(links), b.row.id);
        var ids := IdsOf(unshared);
        entries == WithoutIds(old(entries), ids) &&
        links == LinksAfterDelete(old(links), b.row.id, ids) &&
        blobs == CommonService.WithoutFiles(old(blobs), DeletedBlobsAsWritten(blobDir, unshared)) &&
        backups == WithoutBackup(old(backups), b.row.id)
      ensures nextEntryId == old(nextEntryId) && nextBackupId == old(nextBackupId)
    {
      var unshared := DeleteRows(b);
      DeleteBlobsAsWritten(unshared);
      DropBackupRow(b.row.id);
    }

    /** Deletes the blob of every given entry, as line 264 does. */
    method DeleteBlobsAsWritten(unshared: seq<Entry>)
      modifies this
      ensures blobs == CommonService.WithoutFiles(old(blobs), DeletedBlobsAsWritten(blobDir, unshared))
      ensures entries == old(entries) && links == old(links) && backups == old(backups)
      ensures nextEntryId == old(nextEntryId) && nextBackupId == old(nextBackupId)
    {
      blobs := CommonService.KeepBlobsAsWritten(blobs, blobDir, unshared);
    }

    /** Deletes the row of every entry of `b` that no other backup links, with its links. */
    method DeleteRows(b: Backup) returns (unshared: seq<Entry>)
      requires Valid()
      modifies this
      ensures Valid()
      ensures unshared == UnsharedOf(b.entries, old(links), b.row.id)
      ensures entries == WithoutIds(old(entries), IdsOf(unshared))
      ensures links == CommonService.LinksWithoutEntries(old(links), IdsOf(unshared))
      ensures blobs == old(blobs) && backups == old(backups)
      ensures nextEntryId == old(nextEntryId) && nextBackupId == old(nextBackupId)
    {
      unshared := [];
      CommonService.WithoutNoIds(entries);
      assert IdsOf(unshared) == {};
      for i := 0 to |b.entries|
        invariant unshared == UnsharedOf(b.entries[..i], old(links), b.row.id)
        invariant entries == WithoutIds(old(entries), IdsOf(unshared))
        invariant links == CommonService.LinksWithoutEntries(old(links), IdsOf(unshared))
        invariant Kept() == old(Kept())
      {
        CommonService.UnsharedOfPrefix(b.entries, i, old(links), b.row.id);
        unshared := DropIfUnshared(b.entries[i], b.row.id, old(entries), old(links), unshared);
      }
      assert b.entries[..|b.entries|] == b.entries;
      CommonService.WithoutIdsIncreasing(old(entries), IdsOf(unshared));
      CommonService.CascadeKeepsLinks(old(entries), old(links), IdsOf(unshared));
      KindsByHashWithoutIds(old(entries), IdsOf(unshared));
    }

    /** One step of `DeleteRows`: `e`'s row goes, and by cascade its links, when no other backup links it. */
    method DropIfUnshared(e: Entry, id: int, ghost entries0: seq<Entry>, ghost links0: set<Link>, unshared: seq<Entry>)
      returns (unshared': seq<Entry>)
      requires entries == WithoutIds(entries0, IdsOf(unshared))
      requires links == CommonService.LinksWithoutEntries(links0, IdsOf(unshared))
      requires forall u :: u in unshared ==> Unshared(u, links0, id)
      modifies this
      ensures unshared' == unshared + (if Unshared(e, links0, id) then [e] else [])
      ensures entries == WithoutIds(entries0, IdsOf(unshared'))
      ensures links == CommonService.LinksWithoutEntries(links0, IdsOf(unshared'))
      ensures Kept() == old(Kept())
    {
      CommonService.UnsharedUnderCascade(e, links0, id, unshared);
      unshared' := unshared;
      if Unshared(e, links, id) {
        CommonService.WithoutIdsTwice(entries0, IdsOf(unshared), {e.id});
        CommonService.LinksWithoutEntriesTwice(links0, IdsOf(unshared), {e.id});
        DropEntryRow(e.id);
        assert IdsOf(unshared + [e]) == IdsOf(unshared) + {e.id};
        unshared' := unshared + [e];
      }
    }

    /** Deletes one entry row; its link rows go by cascade. */
    method DropEntryRow(id: int)
      modifies this
      ensures entries == WithoutIds(old(entries), {id})
      ensures links == CommonService.LinksWithoutEntries(old(links), {id})
      ensures blobs == old(blobs) && backups == old(backups)
      ensures nextEntryId == old(nextEntryId) && nextBackupId == old(nextBackupId)
    {
      entries := WithoutIds(entries, {id});
      links := CommonService.LinksWithoutEntries(links, {id});
    }

    /** Deletes the blob of every given entry whose hash no remaining row uses. */
    method DeleteUnreferencedBlobs(unshared: seq<Entry>)
      modifies this
      ensures blobs == CommonService.WithoutFiles(old(blobs), DeletedBlobs(blobDir, unshared, entries))
      ensures entries == old(entries) && links == old(links) && backups == old(backups)
      ensures nextEntryId == old(nextEntryId) && nextBackupId == old(nextBackupId)
    {
      blobs := CommonService.KeepUnreferencedBlobs(blobs, blobDir, unshared, entries);
    }

    /** Deletes the backup row; its link rows go by cascade. */
    method DropBackupRow(id: int)
      requires Valid()
      modifies this
      ensures Valid()
      ensures backups == WithoutBackup(old(backups), id)
      ensures links == set l | l in old(links) && l.backup != id
      ensures entries == old(entries) && blobs == old(blobs)
      ensures nextEntryId == old(nextEntryId) && nextBackupId == old(nextBackupId)
    {
      CommonService.BackupIdsWithout(backups, id);
      backups := WithoutBackup(backups, id);
      links := set l | l in links && l.backup != id;
    }

    /**
     * The second pass of the core `restore`: one task per restored path, in any order.
     * Returns the paths whose task failed and the tree left.
     */
    method SecondPass(pruned: Tree, m: map<Path, Entry>, newDirLength: int, now: int)
      returns (failed: set<Path>, after: Tree)
      ensures failed <= m.Keys
      ensures forall k :: k in m && k !in failed ==> k in after
      ensures forall k :: k in m && k !in failed ==> CoreWritten(m[k], after[k], blobDir, blobs, digest, gunzip)
      ensures forall q :: q in pruned && q !in m ==> q in after && after[q] == pruned[q]
      ensures forall k :: (k in m && k in pruned && (m[k].isDirectory || BlobFile(blobDir, m[k].hash) !in blobs)) ==>
        k in after && after[k] == pruned[k]
      ensures forall q :: q in after ==> q in pruned || q in m || exists k :: k in m && q in Ancestors(k)
    {
      var keys := m.Keys;
      failed := {};
      after := pruned;
      while keys != {}
        invariant PassSoFar(pruned, m, keys, failed, after, blobDir, blobs, digest, gunzip)
        decreases |keys|
      {
        var k :| k in keys;
        var res := CoreApplyRestore(after, k, m[k], blobDir, blobs, digest, gunzip, newDirLength, now);
        PassStep(pruned, m, keys, failed, after, blobDir, blobs, digest, gunzip, k, res);
        if !res.0 {
          failed := failed + {k};
        }
        after := res.1;
        keys := keys - {k};
      }
    }

    /**
     * The core `restore` of backup `id` into the tree `target` (`rootName` is the
     * target's own name): look the backup up, prune the target, then run a task per
     * restored path. When a task fails the restore fails with that path, the tree
     * keeping whatever the other tasks did.
     */
    method Restore(id: int, target: Tree, rootName: string, ignored: Path -> bool, newDirLength: int, now: int)
      returns (err: Option<Error>, after: Tree)
      ensures GetBackup(id).None? ==> err == Some(BackupNotFound) && after == target
      ensures GetBackup(id).Some? ==>
        var m := RestoreMap(GetBackup(id).value.entries, ignored);
        var pruned := Pruned(target, target.Keys, CoreDecide(target, m, rootName, ignored));
        (err.None? ==> forall k :: k in m ==> k in after) &&
        (err.None? ==> forall k :: k in m ==> CoreWritten(m[k], after[k], blobDir, blobs, digest, gunzip)) &&
        (err.Some? ==> err.value.RestoreFailed? && err.value.path in m) &&
        (forall q :: q in pruned && q !in m ==> q in after && after[q] == pruned[q]) &&
        (forall q :: q in after ==> q in pruned || q in m || exists k :: k in m && q in Ancestors(k))
    {
      var b := GetBackup(id);
      if b.None? {
        return Some(BackupNotFound), target;
      }
      var m := RestoreMap(b.value.entries, ignored);
      var pruned := CoreFirstPass(target, m, rootName, ignored);
      var failed;
      failed, after := SecondPass(pruned, m, newDirLength, now);
      if failed == {} {
        err := None;
      } else {
        var k :| k in failed;
        err := Some(RestoreFailed(k));
      }
    }

    /**
     * The core `restore` of a backup whose linked rows read back faithfully and keep the
     * nodes of `tree` (see `CoreLinkedHold`): when it succeeds every file of `tree` at the
     * path of a linked row the caller does not ignore holds its content, or its time and size.
     */
    method RestoreHeld(id: int, target: Tree, rootName: string, ignored: Path -> bool, newDirLength: int, now: int,
                       ghost tree: Tree)
      returns (err: Option<Error>, after: Tree)
      ensures GetBackup(id).None? ==> err == Some(BackupNotFound) && after == target
      ensures CoreLinkedHold(entries, links, id, tree, blobDir, blobs, digest, gunzip) && err.None? ==>
        forall e :: e in entries && Link(id, e.id) in links && !ignored(e.path) && tree[e.path].File? ==>
          e.path in after &&
          ((after[e.path].File? && after[e.path].content == tree[e.path].content) ||
           (after[e.path].lastModified == tree[e.path].lastModified && Length(after[e.path]) == Length(tree[e.path])))
    {
      err, after := Restore(id, target, rootName, ignored, newDirLength, now);
      if GetBackup(id).Some? && err.None? && CoreLinkedHold(entries, links, id, tree, blobDir, blobs, digest, gunzip) {
        CoreRestoredFiles(tree, entries, links, id, GetBackup(id).value.entries, after, ignored, blobDir, blobs, digest, gunzip);
      }
    }

    /**
     * The core `createBackup` of `tree` followed by `restore` of the new backup into
     * `target`. When the restore succeeds, every walked file the restore does not ignore
     * is back with the content it had when backed up, unless its row was reused for
     * agreeing with it in time and size (it then has that time and size). This needs
     * gzip to round-trip, no two walked files to share an MD5, and the catalog to read
     * back faithfully beforehand.
     */
    method BackupThenRestore(root: Path, rootName: string, tree: Tree, comment: string, accept: Path -> bool, now: int,
                             target: Tree, targetName: string, ignored: Path -> bool, newDirLength: int, restoreTime: int)
      returns (r: BackupResult, err: Option<Error>, after: Tree)
      requires Valid()
      requires CommonService.GzipRoundTrips(gzip, gunzip)
      requires var cs := CommonService.FileContents(tree, CoreWalked(tree, rootName, root, blobDir, accept));
        CommonService.NoCollision(digest, cs) && CoreFaithful(entries, blobDir, blobs, digest, gunzip, cs)
      modifies this
      ensures Valid()
      ensures err.None? ==>
        forall q :: q in CoreWalked(tree, rootName, root, blobDir, accept) && !ignored(q) && tree[q].File? ==>
          q in after &&
          ((after[q].File? && after[q].content == tree[q].content) ||
           (after[q].lastModified == tree[q].lastModified && Length(after[q]) == Length(tree[q])))
    {
      ghost var walked;
      ghost var links0, backups0 := links, backups;
      r, walked := CreateBackup(root, rootName, tree, comment, accept, now);
      var id := r.backupId;
      ghost var all := CoreWalked(tree, rootName, root, blobDir, accept);
      forall l | l in links0
        ensures l.backup != id
      {
        var row :| row in backups0 && row.id == l.backup;
      }
      CoreCollectedHold(entries, walked, links0, links, id, tree, blobDir, blobs, digest, gunzip);
      err, after := RestoreHeld(id, target, targetName, ignored, newDirLength, restoreTime, tree);
      if err.None? {
        forall q | q in all && !ignored(q) && tree[q].File?
          ensures q in after &&
            ((after[q].File? && after[q].content == tree[q].content) ||
             (after[q].lastModified == tree[q].lastModified && Length(after[q]) == Length(tree[q])))
        {
          var w :| w in walked && w.path == q && !w.isDirectory;
          assert w in entries && Link(id, w.id) in links;
        }
      }
    }
  }
}
