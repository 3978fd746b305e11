/**
 * What both versions of `BackupDatabaseService` share: the nodes of a walked
 * directory tree, the content-addressed blob layout under `blobDir`, the rows of
 * the `backups` and `backup_entry_backup` tables, the newest-first page of
 * `listBackups`, and the effect of restore's delete-while-walking pass.
 */
module Store {
  import opened Wrappers
  import opened Paths
  import opened Hex

  /** A file-system node; `length` is what `File.length()` reports for a directory. */
  datatype Node = File(content: seq<byte>, lastModified: int) | Dir(length: int, lastModified: int)

  /** `File.length()` (and `Path.fileSize()`). */
  function Length(n: Node): int
  {
    if n.File? then |n.content| else n.length
  }

  /** A directory tree below some root, keyed by relative path ([] is the root itself). */
  type Tree = map<Path, Node>

  /** The blob store: file contents keyed by absolute path. Directories are implicit. */
  type Blobs = map<Path, seq<byte>>

  /** `getBlobFile(hash)`: `blobDir.resolve(hash.take(2)).resolve(hash.drop(2))`. */
  function BlobFile(blobDir: Path, hash: string): (p: Path)
    ensures IsPrefix(blobDir, p)
  {
    Resolve(Resolve(blobDir, Take(hash, 2)), Drop(hash, 2))
  }

  /** The blob of a 32-digit MD5 text sits two levels below `blobDir`, and its two names spell the hash. */
  lemma BlobFileOfDigest(blobDir: Path, d: Digest)
    ensures var h := Encode(d); var p := BlobFile(blobDir, h);
      |p| == |blobDir| + 2 && p[..|blobDir|] == blobDir &&
      |p[|blobDir|]| == 2 && p[|blobDir|] + p[|blobDir| + 1] == h
  {
    DigestText(d);
  }

  /** Different hashes never share a blob file: the names below `blobDir` spell the hash back. */
  lemma BlobFileInjective(blobDir: Path, h1: string, h2: string)
    requires BlobFile(blobDir, h1) == BlobFile(blobDir, h2)
    ensures h1 == h2
  {
    var p := BlobFile(blobDir, h1);
    var n := |blobDir|;
    assert |p| == n + (if h1 == "" then 0 else if |h1| <= 2 then 1 else 2);
    assert |p| == n + (if h2 == "" then 0 else if |h2| <= 2 then 1 else 2);
    if |h1| > 2 {
      assert p[n] == h1[..2] && p[n + 1] == h1[2..];
      assert p[n] == h2[..2] && p[n + 1] == h2[2..];
      assert h1 == h1[..2] + h1[2..] && h2 == h2[..2] + h2[2..];
    } else if h1 != "" {
      assert p[n] == h1 && p[n] == h2;
    }
  }

  /** A row of `backups`. */
  datatype BackupRow = BackupRow(id: int, size: int, zippedSize: int, created: int, comment: string, temporary: bool)

  /** A row of `backup_entry_backup`: backup `backup` contains entry `entry`. */
  datatype Link = Link(backup: int, entry: int)

  /** Rows kept in insertion order, which is increasing id order. */
  predicate IdsIncreasing(rows: seq<BackupRow>)
  {
    forall i, j :: 0 <= i < j < |rows| ==> rows[i].id < rows[j].id
  }

  /** SQLite `OFFSET`: a negative offset counts as zero. */
  function PageStart(n: nat, offset: int): (s: nat)
    ensures s <= n
  {
    if offset <= 0 then 0 else if offset >= n then n else offset
  }

  /** SQLite `LIMIT`: a negative limit means no limit. */
  function PageStop(n: nat, start: nat, limit: int): (t: nat)
    requires start <= n
    ensures start <= t <= n
  {
    if limit < 0 || start + limit >= n then n else start + limit
  }

  /** `listBackups(offset, limit)`: `ORDER BY id DESC LIMIT limit OFFSET offset`. */
  function ListPage(rows: seq<BackupRow>, offset: int, limit: int): (r: seq<BackupRow>)
    ensures var s := PageStart(|rows|, offset);
      |r| == PageStop(|rows|, s, limit) - s &&
      forall i :: 0 <= i < |r| ==> r[i] == rows[|rows| - 1 - (s + i)]
  {
    var n := |rows|;
    var s := PageStart(n, offset);
    seq(PageStop(n, s, limit) - s, i requires 0 <= i < PageStop(n, s, limit) - s => rows[n - 1 - (s + i)])
  }

  /** A page lists backups newest first, and every backup on it is a stored one. */
  lemma ListPageNewestFirst(rows: seq<BackupRow>, offset: int, limit: int)
    requires IdsIncreasing(rows)
    ensures var r := ListPage(rows, offset, limit);
      (forall i, j :: 0 <= i < j < |r| ==> r[i].id > r[j].id) &&
      (forall i :: 0 <= i < |r| ==> r[i] in rows)
  {
    var r := ListPage(rows, offset, limit);
    var s := PageStart(|rows|, offset);
    forall i, j | 0 <= i < j < |r| ensures r[i].id > r[j].id {
      assert r[i] == rows[|rows| - 1 - (s + i)] && r[j] == rows[|rows| - 1 - (s + j)];
    }
  }

  /** Consecutive pages fit together: a page of `a` then the page of `b` after it is the page of `a + b`. */
  lemma ListPagesConcatenate(rows: seq<BackupRow>, offset: nat, a: nat, b: nat)
    ensures ListPage(rows, offset, a) + ListPage(rows, offset + a, b) == ListPage(rows, offset, a + b)
  {
    var p, q, w := ListPage(rows, offset, a), ListPage(rows, offset + a, b), ListPage(rows, offset, a + b);
    assert |p| + |q| == |w|;
    forall i | 0 <= i < |w| ensures (p + q)[i] == w[i] {
      if i >= |p| {
        assert PageStart(|rows|, offset + a) == PageStart(|rows|, offset) + |p|;
      }
    }
  }

  /** The first row of the first page is the latest backup, the one `getLatestBackup` reads. */
  lemma FirstOfFirstPageIsLatest(rows: seq<BackupRow>, limit: int)
    requires |rows| > 0 && limit != 0
    ensures ListPage(rows, 0, limit) != [] && ListPage(rows, 0, limit)[0] == rows[|rows| - 1]
  {
  }

  /** What the restore walk does with one visited path. */
  datatype Deletion = Keep | DeleteFile | DeleteTree

  /**
   * `q` is gone once the paths in `visited` have been handled: it was deleted itself
   * (`File.delete`), or it lies at or below a path deleted recursively (`deleteRecursively`).
   */
  ghost predicate RemovedBy(visited: set<Path>, decide: Path -> Deletion, q: Path)
  {
    (q in visited && decide(q) == DeleteFile) ||
    exists k :: 0 <= k <= |q| && q[..k] in visited && decide(q[..k]) == DeleteTree
  }

  /** The tree left after handling `visited`, in whatever order the walk reached them. */
  ghost function Pruned(t: Tree, visited: set<Path>, decide: Path -> Deletion): Tree
  {
    map q | q in t && !RemovedBy(visited, decide, q) :: t[q]
  }

  /** Before the walk nothing is gone. */
  lemma PrunedNothing(t: Tree, decide: Path -> Deletion)
    ensures Pruned(t, {}, decide) == t
  {
  }

  /** Handling one more path `p` that is still present. */
  lemma PruneStep(t: Tree, cur: Tree, visited: set<Path>, decide: Path -> Deletion, p: Path)
    requires cur == Pruned(t, visited, decide)
    requires p in cur
    ensures decide(p) == Keep ==> Pruned(t, visited + {p}, decide) == cur
    ensures decide(p) == DeleteFile ==> Pruned(t, visited + {p}, decide) == cur - {p}
    ensures decide(p) == DeleteTree ==>
      Pruned(t, visited + {p}, decide) == map q | q in cur && !IsPrefix(p, q) :: cur[q]
  {
    var v' := visited + {p};
    if decide(p) == DeleteTree {
      forall q | q in t ensures RemovedBy(v', decide, q) <==> RemovedBy(visited, decide, q) || IsPrefix(p, q) {
        if IsPrefix(p, q) {
          assert q[..|p|] == p;
        }
        if RemovedBy(v', decide, q) && !RemovedBy(visited, decide, q) {
          var k :| 0 <= k <= |q| && q[..k] in v' && decide(q[..k]) == DeleteTree;
          assert q[..k] == p;
        }
      }
    } else {
      forall q | q in t ensures RemovedBy(v', decide, q) <==> RemovedBy(visited, decide, q) || (q == p && decide(p) == DeleteFile) {
      }
    }
  }

  /** Reaching a path that an earlier recursive delete already removed changes nothing. */
  lemma PruneGone(t: Tree, visited: set<Path>, decide: Path -> Deletion, p: Path)
    requires p in t && p !in visited
    requires p !in Pruned(t, visited, decide)
    ensures Pruned(t, visited + {p}, decide) == Pruned(t, visited, decide)
  {
    var v' := visited + {p};
    var k0 :| 0 <= k0 <= |p| && p[..k0] in visited && decide(p[..k0]) == DeleteTree;
    forall q | q in t && RemovedBy(v', decide, q) ensures RemovedBy(visited, decide, q) {
      if q == p && decide(p) == DeleteFile {
        assert q[..k0] == p[..k0];
      } else if !(q in visited && decide(q) == DeleteFile) {
        var k :| 0 <= k <= |q| && q[..k] in v' && decide(q[..k]) == DeleteTree;
        if q[..k] == p {
          assert q[..k0] == p[..k0];
        }
      }
    }
  }
}
