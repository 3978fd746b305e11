/**
 * The common `BackupDatabaseService`: the three tables and the blob directory it
 * owns, and the operations that change them (`createBackup`, `deleteBackup`,
 * `packBackup`, `importZipArchive`) or read them (`check`, `restore`, the queries).
 */
module CommonService {
  import opened Wrappers
  import opened Paths
  import opened Hex
  import opened Store
  import opened CommonCatalog

  /** The ids of the rows of `backups`. */
  function BackupIds(rows: seq<BackupRow>): set<int>
  {
    set b | b in rows :: b.id
  }

  /** Deleting backup `id` keeps the id of every other backup. */
  lemma BackupIdsWithout(rows: seq<BackupRow>, id: int)
    ensures forall x :: x in BackupIds(rows) && x != id ==> x in BackupIds(WithoutBackup(rows, id))
  {
    forall x | x in BackupIds(rows) && x != id
      ensures x in BackupIds(WithoutBackup(rows, id))
    {
      var b :| b in rows && b.id == x;
      assert b in WithoutBackup(rows, id);
    }
  }

  /** Entry rows in insertion order, which is increasing id order. */
  predicate EntryIdsIncreasing(rows: seq<Entry>)
  {
    forall i, j :: 0 <= i < j < |rows| ==> rows[i].id < rows[j].id
  }

  /** The paths `createBackup` walks and keeps: names outside `ignoredFiles` the caller's predicate accepts. */
  function Walked(tree: Tree, rootName: string, root: Path, ignoredFiles: set<string>, accept: Path -> bool): (r: set<Path>)
    ensures forall q :: q in r <==> q in tree && Name(rootName, q) !in ignoredFiles && accept(root + q)
  {
    set q | q in tree && Name(rootName, q) !in ignoredFiles && accept(root + q)
  }

  /** The link rows tying backup `id` to the entries of `es`. */
  function LinksOf(id: int, es: seq<Entry>): (r: set<Link>)
    ensures forall l :: l in r <==> l.backup == id && l.entry in IdsOf(es)
  {
    set e | e in es :: Link(id, e.id)
  }

  /** The shape of a row `createBackup` inserts (see `BackupStep`). */
  predicate FreshRow(e: Entry)
  {
    e.compress == (if e.size > 1024 then 1 else 0) &&
    (e.isDirectory ==> e.hash == "" && e.zippedSize == 0) &&
    (!e.isDirectory ==> |e.hash| == 32 && (e.compress == 0 ==> e.zippedSize == e.size))
  }

  /** The rows after `packBackup`: the packed ids now point at the archive. */
  function PackRows(rows: seq<Entry>, ids: set<int>, hash: string, blobSize: int): (r: seq<Entry>)
    ensures |r| == |rows|
    ensures forall i :: 0 <= i < |rows| ==>
      r[i] == (if rows[i].id in ids then Packed(rows[i], hash, blobSize) else rows[i])
  {
    seq(|rows|, i requires 0 <= i < |rows| => if rows[i].id in ids then Packed(rows[i], hash, blobSize) else rows[i])
  }

  /** Packing rewrites rows in place: the ids, and so the id order, stay. */
  lemma PackRowsKeepIds(rows: seq<Entry>, ids: set<int>, hash: string, blobSize: int)
    ensures IdsOf(PackRows(rows, ids, hash, blobSize)) == IdsOf(rows)
    ensures EntryIdsIncreasing(rows) ==> EntryIdsIncreasing(PackRows(rows, ids, hash, blobSize))
  {
    var r := PackRows(rows, ids, hash, blobSize);
    forall x | x in IdsOf(rows) ensures x in IdsOf(r) {
      var i :| 0 <= i < |rows| && rows[i].id == x;
      assert r[i].id == x;
    }
    forall x | x in IdsOf(r) ensures x in IdsOf(rows) {
      var i :| 0 <= i < |r| && r[i].id == x;
      assert rows[i].id == x;
    }
  }

  /** The data a stream yields, or nothing. */
  function DataOf(st: Stream): seq<byte>
  {
    if st.Bytes? then st.data else []
  }

  /** The error `packFiles` stops with at an entry it cannot pack. */
  function PackError(e: Entry, st: Stream): Error
  {
    if e.compress == 2 then AlreadyPacked
    else if st.Missing? then BlobNotFound(e.path)
    else UnknownCompress(e.compress)
  }

  /** `PackItems` stops at the first entry it cannot pack, with that entry's error. */
  lemma {:induction false} PackItemsFirstFailure(es: seq<Entry>, blobDir: Path, blobs: Blobs,
                                                 gunzip: seq<byte> -> Option<seq<byte>>, unzip: seq<byte> -> seq<ZipItem>, i: nat)
    requires i < |es|
    requires forall j :: 0 <= j < i ==> es[j].compress != 2 && Read(es[j], blobDir, blobs, gunzip, unzip).Bytes?
    requires !(es[i].compress != 2 && Read(es[i], blobDir, blobs, gunzip, unzip).Bytes?)
    ensures PackItems(es, blobDir, blobs, gunzip, unzip) ==
      Failure(PackError(es[i], Read(es[i], blobDir, blobs, gunzip, unzip)))
    decreases i
  {
    if i > 0 {
      PackItemsFirstFailure(es[1..], blobDir, blobs, gunzip, unzip, i - 1);
    }
  }

  /** Removing rows in two steps removes their ids together. */
  lemma {:induction false} WithoutIdsTwice(rows: seq<Entry>, a: set<int>, b: set<int>)
    ensures WithoutIds(WithoutIds(rows, a), b) == WithoutIds(rows, a + b)
    decreases |rows|
  {
    if rows != [] {
      WithoutIdsTwice(rows[1..], a, b);
      var w := WithoutIds(rows, a);
      var w' := WithoutIds(rows[1..], a);
      assert w == (if rows[0].id in a then [] else [rows[0]]) + w';
      if rows[0].id !in a {
        assert w[0] == rows[0] && w[1..] == w';
        assert WithoutIds(w, b) == (if rows[0].id in b then [] else [rows[0]]) + WithoutIds(w', b);
      } else {
        assert w == w';
      }
    }
  }

  /** Deleting no ids keeps every row. */
  lemma {:induction false} WithoutNoIds(rows: seq<Entry>)
    ensures WithoutIds(rows, {}) == rows
    decreases |rows|
  {
    if rows != [] {
      WithoutNoIds(rows[1..]);
      assert [rows[0]] + rows[1..] == rows;
    }
  }

  /** Filtering keeps entry rows in id order. */
  lemma {:induction false} WithoutIdsIncreasing(rows: seq<Entry>, ids: set<int>)
    requires EntryIdsIncreasing(rows)
    ensures EntryIdsIncreasing(WithoutIds(rows, ids))
    decreases |rows|
  {
    if rows != [] {
      WithoutIdsIncreasing(rows[1..], ids);
      var rest := WithoutIds(rows[1..], ids);
      forall j | 0 <= j < |rest| ensures rows[0].id < rest[j].id {
        assert rest[j] in rows[1..];
      }
    }
  }

  /** The unshared entries of a longer prefix. */
  lemma {:induction false} UnsharedOfSnoc(es: seq<Entry>, e: Entry, links: set<Link>, id: int)
    ensures UnsharedOf(es + [e], links, id) == UnsharedOf(es, links, id) + (if Unshared(e, links, id) then [e] else [])
    decreases |es|
  {
    if es != [] {
      UnsharedOfSnoc(es[1..], e, links, id);
      assert (es + [e])[1..] == es[1..] + [e];
    }
  }

  /** The unshared entries of the first `i + 1` entries, from those of the first `i`. */
  lemma UnsharedOfPrefix(es: seq<Entry>, i: nat, links: set<Link>, id: int)
    requires i < |es|
    ensures UnsharedOf(es[..i + 1], links, id) == UnsharedOf(es[..i], links, id) + (if Unshared(es[i], links, id) then [es[i]] else [])
  {
    assert es[..i + 1] == es[..i] + [es[i]];
    UnsharedOfSnoc(es[..i], es[i], links, id);
  }

  /** The links left once the rows with the given ids are deleted (`ON DELETE CASCADE`). */
  function LinksWithoutEntries(links: set<Link>, ids: set<int>): set<Link>
  {
    set l | l in links && l.entry !in ids
  }

  /** The blob store without the given files. */
  function WithoutFiles(blobs: Blobs, files: set<Path>): Blobs
  {
    blobs - files
  }

  /** Removing files in two steps removes them together. */
  lemma WithoutFilesTwice(blobs: Blobs, a: set<Path>, b: set<Path>)
    ensures WithoutFiles(WithoutFiles(blobs, a), b) == WithoutFiles(blobs, a + b)
  {
  }

  /** Cascading two deletions removes the links of both. */
  lemma LinksWithoutEntriesTwice(links: set<Link>, a: set<int>, b: set<int>)
    ensures LinksWithoutEntries(LinksWithoutEntries(links, a), b) == LinksWithoutEntries(links, a + b)
  {
  }

  /** No remaining row has the hash `h`. */
  predicate HashUnused(remaining: seq<Entry>, h: string)
  {
    forall x :: x in remaining ==> x.hash != h
  }

  /** The blobs freed by one more unshared entry. */
  lemma DeletedBlobsSnoc(blobDir: Path, us: seq<Entry>, u: Entry, remaining: seq<Entry>)
    ensures DeletedBlobs(blobDir, us + [u], remaining) ==
      DeletedBlobs(blobDir, us, remaining) + (if HashUnused(remaining, u.hash) then {BlobFile(blobDir, u.hash)} else {})
  {
  }

  lemma DeletedAsWrittenSnoc(blobDir: Path, us: seq<Entry>, u: Entry)
    ensures DeletedBlobsAsWritten(blobDir, us + [u]) == DeletedBlobsAsWritten(blobDir, us) + {BlobFile(blobDir, u.hash)}
  {
  }

  /** After a cascade every remaining link still names a remaining entry row. */
  lemma CascadeKeepsLinks(entries: seq<Entry>, links: set<Link>, ids: set<int>)
    requires forall l :: l in links ==> l.entry in IdsOf(entries)
    ensures forall l :: l in LinksWithoutEntries(links, ids) ==> l.entry in IdsOf(WithoutIds(entries, ids))
  {
    IdsOfWithoutIds(entries, ids);
  }

  /** Deleting unshared rows one by one does not change whether a later row is shared. */
  lemma UnsharedUnderCascade(e: Entry, links: set<Link>, id: int, unshared: seq<Entry>)
    requires forall u :: u in unshared ==> Unshared(u, links, id)
    ensures Unshared(e, LinksWithoutEntries(links, IdsOf(unshared)), id) <==> Unshared(e, links, id)
  {
    if Unshared(e, LinksWithoutEntries(links, IdsOf(unshared)), id) {
      forall l | l in links && l.entry == e.id ensures l.backup == id {
        if l.entry in IdsOf(unshared) {
          var u :| u in unshared && u.id == l.entry;
        } else {
          assert l in LinksWithoutEntries(links, IdsOf(unshared));
        }
      }
    }
  }

  /** The rows left keep their ids; the deleted ids are gone. */
  lemma IdsOfWithoutIds(rows: seq<Entry>, ids: set<int>)
    ensures IdsOf(WithoutIds(rows, ids)) == IdsOf(rows) - ids
  {
    forall x | x in IdsOf(rows) - ids ensures x in IdsOf(WithoutIds(rows, ids)) {
      var e :| e in rows && e.id == x;
      assert e in WithoutIds(rows, ids);
    }
  }

  /** Every row of `added` is a freshly made row. */
  predicate AllFresh(added: seq<Entry>)
  {
    forall e :: e in added ==> FreshRow(e)
  }

  /** Every listed entry is a row of `rows`, for a walked path, of that path's kind. */
  predicate Listed(list: seq<Entry>, rows: seq<Entry>, all: set<Path>, tree: Tree)
  {
    forall e :: e in list ==> e in rows && e.path in all && e.path in tree && e.isDirectory == tree[e.path].Dir?
  }

  /** `cover` maps each path done so far to a listed entry of that path and kind. */
  ghost predicate Covered(cover: map<Path, Entry>, list: seq<Entry>, tree: Tree)
  {
    forall q :: q in cover ==> cover[q] in list && cover[q].path == q && q in tree && cover[q].isDirectory == tree[q].Dir?
  }

  lemma ListedGrows(list: seq<Entry>, rows: seq<Entry>, rows': seq<Entry>, all: set<Path>, tree: Tree, e: Entry)
    requires Listed(list, rows, all, tree)
    requires rows' == rows || rows' == rows + [e]
    requires e in rows' && e.path in all && e.path in tree && e.isDirectory == tree[e.path].Dir?
    ensures Listed(list + [e], rows', all, tree)
  {
  }

  /** Once every walked path is covered, each has a listed entry of its kind. */
  lemma CoveredAll(cover: map<Path, Entry>, list: seq<Entry>, tree: Tree, all: set<Path>)
    requires Covered(cover, list, tree) && forall q :: q in all ==> q in cover
    ensures forall q :: q in all ==> exists e :: e in list && e.path == q && e.isDirectory == tree[q].Dir?
  {
    forall q | q in all
      ensures exists e :: e in list && e.path == q && e.isDirectory == tree[q].Dir?
    {
      assert cover[q] in list;
    }
  }

  lemma CoveredGrows(cover: map<Path, Entry>, list: seq<Entry>, tree: Tree, p: Path, e: Entry)
    requires Covered(cover, list, tree)
    requires e.path == p && p in tree && e.isDirectory == tree[p].Dir?
    ensures Covered(cover[p := e], list + [e], tree)
  {
  }

  /** One more entry through the unconditional deletion takes its blob file away. */
  lemma KeptAsWrittenStep(blobs: Blobs, blobDir: Path, unshared: seq<Entry>, j: nat)
    requires j < |unshared|
    ensures WithoutFiles(blobs, DeletedBlobsAsWritten(blobDir, unshared[..j + 1])) ==
      WithoutFiles(WithoutFiles(blobs, DeletedBlobsAsWritten(blobDir, unshared[..j])), {BlobFile(blobDir, unshared[j].hash)})
  {
    assert unshared[..j + 1] == unshared[..j] + [unshared[j]];
    DeletedAsWrittenSnoc(blobDir, unshared[..j], unshared[j]);
    WithoutFilesTwice(blobs, DeletedBlobsAsWritten(blobDir, unshared[..j]), {BlobFile(blobDir, unshared[j].hash)});
  }

  /** One more entry through the checked deletion takes its blob file away only when its hash is unused. */
  lemma KeptStep(blobs: Blobs, blobDir: Path, unshared: seq<Entry>, remaining: seq<Entry>, j: nat)
    requires j < |unshared|
    ensures var before := WithoutFiles(blobs, DeletedBlobs(blobDir, unshared[..j], remaining));
      WithoutFiles(blobs, DeletedBlobs(blobDir, unshared[..j + 1], remaining)) ==
      if HashUnused(remaining, unshared[j].hash) then WithoutFiles(before, {BlobFile(blobDir, unshared[j].hash)}) else before
  {
    assert unshared[..j + 1] == unshared[..j] + [unshared[j]];
    DeletedBlobsSnoc(blobDir, unshared[..j], unshared[j], remaining);
    WithoutFilesTwice(blobs, DeletedBlobs(blobDir, unshared[..j], remaining), {BlobFile(blobDir, unshared[j].hash)});
  }

  /** The loop of the source's unconditional `deleteIfExists`: the blobs left after it. */
  method KeepBlobsAsWritten(blobs: Blobs, blobDir: Path, unshared: seq<Entry>) returns (kept: Blobs)
    ensures kept == WithoutFiles(blobs, DeletedBlobsAsWritten(blobDir, unshared))
  {
    kept := blobs;
    for j := 0 to |unshared|
      invariant kept == WithoutFiles(blobs, DeletedBlobsAsWritten(blobDir, unshared[..j]))
    {
      KeptAsWrittenStep(blobs, blobDir, unshared, j);
      kept := WithoutFiles(kept, {BlobFile(blobDir, unshared[j].hash)});
    }
    assert unshared[..|unshared|] == unshared;
  }

  /** The blob loop of `deleteBackup`: the blobs left once each unshared, unused hash is gone. */
  method KeepUnreferencedBlobs(blobs: Blobs, blobDir: Path, unshared: seq<Entry>, remaining: seq<Entry>) returns (kept: Blobs)
    ensures kept == WithoutFiles(blobs, DeletedBlobs(blobDir, unshared, remaining))
  {
    kept := blobs;
    for j := 0 to |unshared|
      invariant kept == WithoutFiles(blobs, DeletedBlobs(blobDir, unshared[..j], remaining))
    {
      KeptStep(blobs, blobDir, unshared, remaining, j);
      if HashUnused(remaining, unshared[j].hash) {
        kept := WithoutFiles(kept, {BlobFile(blobDir, unshared[j].hash)});
      }
    }
    assert unshared[..|unshared|] == unshared;
  }

  /**
   * Every path done and not failed is in the tree, written as its entry promises, or
   * left as it was because it already agreed with the entry in time and size.
   */
  predicate PassRestored(pruned: Tree, m: map<Path, Entry>, keys: set<Path>, failed: set<Path>, after: Tree,
                         blobDir: Path, blobs: Blobs, digest: seq<byte> -> Digest,
                         gunzip: seq<byte> -> Option<seq<byte>>, unzip: seq<byte> -> seq<ZipItem>, now: int)
  {
    forall k :: k in m && k !in keys && k !in failed ==>
      k in after &&
      (Written(m[k], after[k], blobDir, blobs, digest, gunzip, unzip, now) ||
       (Current(after[k], m[k]) && (k in pruned ==> after[k] == pruned[k])))
  }

  /** Every pruned path not restored, or not restored yet, is as the pruned tree has it. */
  predicate PassKeeps(pruned: Tree, m: map<Path, Entry>, keys: set<Path>, after: Tree)
  {
    forall q :: q in pruned && (q !in m || q in keys) ==> q in after && after[q] == pruned[q]
  }

  /** Every path done that was already current is as the pruned tree has it. */
  predicate PassLeaves(pruned: Tree, m: map<Path, Entry>, keys: set<Path>, after: Tree)
  {
    forall k :: (k in m && k !in keys && k in pruned && Current(pruned[k], m[k])) ==> k in after && after[k] == pruned[k]
  }

  /** Nothing but the restored paths and their ancestors is added to the pruned tree. */
  predicate PassAddsOnly(pruned: Tree, m: map<Path, Entry>, after: Tree)
  {
    forall q :: q in after ==> q in pruned || q in m || exists k :: k in m && q in Ancestors(k)
  }

  /** The second pass of `restore` with the paths `keys` still to do. */
  predicate PassSoFar(pruned: Tree, m: map<Path, Entry>, keys: set<Path>, failed: set<Path>, after: Tree,
                      blobDir: Path, blobs: Blobs, digest: seq<byte> -> Digest,
                      gunzip: seq<byte> -> Option<seq<byte>>, unzip: seq<byte> -> seq<ZipItem>, now: int)
  {
    keys <= m.Keys && failed <= m.Keys - keys &&
    PassRestored(pruned, m, keys, failed, after, blobDir, blobs, digest, gunzip, unzip, now) &&
    PassKeeps(pruned, m, keys, after) && PassLeaves(pruned, m, keys, after) && PassAddsOnly(pruned, m, after)
  }

  /** One task of the second pass, with the properties `ApplyRestore` promises, keeps `PassSoFar`. */
  lemma PassStep(pruned: Tree, m: map<Path, Entry>, keys: set<Path>, failed: set<Path>, after: Tree,
                 blobDir: Path, blobs: Blobs, digest: seq<byte> -> Digest,
                 gunzip: seq<byte> -> Option<seq<byte>>, unzip: seq<byte> -> seq<ZipItem>, now: int,
                 k: Path, res: (bool, Tree))
    requires PassSoFar(pruned, m, keys, failed, after, blobDir, blobs, digest, gunzip, unzip, now) && k in keys
    requires forall q :: q in after && q != k ==> q in res.1 && res.1[q] == after[q]
    requires res.0 ==> k in res.1
    requires res.0 ==> Written(m[k], res.1[k], blobDir, blobs, digest, gunzip, unzip, now) ||
                       (k in after && res.1[k] == after[k] && Current(after[k], m[k]))
    requires k in after && Current(after[k], m[k]) ==> k in res.1 && res.1[k] == after[k]
    requires forall q :: q in res.1 ==> q in after || q == k || q in Ancestors(k)
    ensures PassSoFar(pruned, m, keys - {k}, if res.0 then failed else failed + {k}, res.1,
                      blobDir, blobs, digest, gunzip, unzip, now)
  {
    var keys', failed' := keys - {k}, (if res.0 then failed else failed + {k});
    assert keys' <= m.Keys && failed' <= m.Keys - keys';
    PassRestoredStep(pruned, m, keys, failed, after, blobDir, blobs, digest, gunzip, unzip, now, k, res);
    PassKeepsStep(pruned, m, keys, after, k, res.1);
    PassLeavesStep(pruned, m, keys, after, k, res.1);
    PassAddsOnlyStep(pruned, m, after, k, res.1);
  }

  lemma PassRestoredStep(pruned: Tree, m: map<Path, Entry>, keys: set<Path>, failed: set<Path>, after: Tree,
                         blobDir: Path, blobs: Blobs, digest: seq<byte> -> Digest,
                         gunzip: seq<byte> -> Option<seq<byte>>, unzip: seq<byte> -> seq<ZipItem>, now: int,
                         k: Path, res: (bool, Tree))
    requires PassRestored(pruned, m, keys, failed, after, blobDir, blobs, digest, gunzip, unzip, now)
    requires PassKeeps(pruned, m, keys, after) && k in keys && k in m
    requires forall q :: q in after && q != k ==> q in res.1 && res.1[q] == after[q]
    requires res.0 ==> k in res.1
    requires res.0 ==> Written(m[k], res.1[k], blobDir, blobs, digest, gunzip, unzip, now) ||
                       (k in after && res.1[k] == after[k] && Current(after[k], m[k]))
    ensures PassRestored(pruned, m, keys - {k}, if res.0 then failed else failed + {k}, res.1,
                         blobDir, blobs, digest, gunzip, unzip, now)
  {
    var failed' := if res.0 then failed else failed + {k};
    forall j | j in m && j !in keys - {k} && j !in failed'
      ensures j in res.1 && (Written(m[j], res.1[j], blobDir, blobs, digest, gunzip, unzip, now) ||
        (Current(res.1[j], m[j]) && (j in pruned ==> res.1[j] == pruned[j])))
    {
      if j != k {
        assert j !in keys && j !in failed;
      }
    }
  }

  lemma PassKeepsStep(pruned: Tree, m: map<Path, Entry>, keys: set<Path>, after: Tree, k: Path, after': Tree)
    requires PassKeeps(pruned, m, keys, after) && k in keys && k in m
    requires forall q :: q in after && q != k ==> q in after' && after'[q] == after[q]
    ensures PassKeeps(pruned, m, keys - {k}, after')
  {
    forall q | q in pruned && (q !in m || q in keys - {k})
      ensures q in after' && after'[q] == pruned[q]
    {
      assert q != k;
    }
  }

  lemma PassLeavesStep(pruned: Tree, m: map<Path, Entry>, keys: set<Path>, after: Tree, k: Path, after': Tree)
    requires PassLeaves(pruned, m, keys, after) && PassKeeps(pruned, m, keys, after) && k in keys
    requires forall q :: q in after && q != k ==> q in after' && after'[q] == after[q]
    requires k in m && k in after && Current(after[k], m[k]) ==> k in after' && after'[k] == after[k]
    ensures PassLeaves(pruned, m, keys - {k}, after')
  {
    forall j | j in m && j !in keys - {k} && j in pruned && Current(pruned[j], m[j])
      ensures j in after' && after'[j] == pruned[j]
    {
      if j == k {
        assert after[k] == pruned[k];
      }
    }
  }

  lemma PassAddsOnlyStep(pruned: Tree, m: map<Path, Entry>, after: Tree, k: Path, after': Tree)
    requires PassAddsOnly(pruned, m, after) && k in m
    requires forall q :: q in after' ==> q in after || q == k || q in Ancestors(k)
    ensures PassAddsOnly(pruned, m, after')
  {
    forall q | q in after'
      ensures q in pruned || q in m || exists j :: j in m && q in Ancestors(j)
    {
      if q !in after {
        assert q == k || q in Ancestors(k);
      }
    }
  }

  // ---------------------------------------------------------------------------
  // What `restore` can give back of what `createBackup` stored

  /** Gzip-decoding undoes gzip. */
  ghost predicate GzipRoundTrips(gzip: seq<byte> -> seq<byte>, gunzip: seq<byte> -> Option<seq<byte>>)
  {
    forall x :: gunzip(gzip(x)) == Some(x)
  }

  /** No two of the contents `cs` share an MD5. */
  predicate NoCollision(digest: seq<byte> -> Digest, cs: set<seq<byte>>)
  {
    forall a, b :: a in cs && b in cs && HashText(digest, a) == HashText(digest, b) ==> a == b
  }

  /** The contents of the files of `tree` at the paths `all`. */
  function FileContents(tree: Tree, all: set<Path>): (cs: set<seq<byte>>)
    ensures forall q :: q in all && q in tree && tree[q].File? ==> tree[q].content in cs
  {
    set q | q in all && q in tree && tree[q].File? :: tree[q].content
  }

  /** A file row stored as `BackupStep` stores one, reading back bytes of its hash and size. */
  predicate ReadsBack(e: Entry, blobDir: Path, blobs: Blobs, digest: seq<byte> -> Digest,
                      gunzip: seq<byte> -> Option<seq<byte>>, unzip: seq<byte> -> seq<ZipItem>)
  {
    !e.isDirectory ==>
      e.compress == (if e.size > 1024 then 1 else 0) &&
      var st := Read(e, blobDir, blobs, gunzip, unzip);
      st.Bytes? && HashText(digest, st.data) == e.hash && |st.data| == e.size
  }

  /**
   * The catalog reads back faithfully: every row reads back bytes of its hash and size,
   * and a file row with the MD5 of one of the contents `cs` reads back that content.
   */
  predicate Faithful(rows: seq<Entry>, blobDir: Path, blobs: Blobs, digest: seq<byte> -> Digest,
                     gunzip: seq<byte> -> Option<seq<byte>>, unzip: seq<byte> -> seq<ZipItem>, cs: set<seq<byte>>)
  {
    (forall e :: e in rows ==> ReadsBack(e, blobDir, blobs, digest, gunzip, unzip)) &&
    (forall e, c :: e in rows && !e.isDirectory && c in cs && e.hash == HashText(digest, c) ==>
      Read(e, blobDir, blobs, gunzip, unzip) == Bytes(c))
  }

  /**
   * The row collected for node `n` keeps it: `n` is a directory, or the row reads back
   * `n`'s content, or the row was reused for agreeing with `n` in size and time.
   */
  predicate Holds(e: Entry, n: Node, blobDir: Path, blobs: Blobs,
                  gunzip: seq<byte> -> Option<seq<byte>>, unzip: seq<byte> -> seq<ZipItem>)
  {
    n.Dir? || Read(e, blobDir, blobs, gunzip, unzip) == Bytes(n.content) ||
    (e.size == Length(n) && e.lastModified == n.lastModified)
  }

  /** Every row of `list` keeps the node of `tree` at its path. */
  predicate AllHold(list: seq<Entry>, tree: Tree, blobDir: Path, blobs: Blobs,
                    gunzip: seq<byte> -> Option<seq<byte>>, unzip: seq<byte> -> seq<ZipItem>)
  {
    forall e :: e in list ==> e.path in tree && Holds(e, tree[e.path], blobDir, blobs, gunzip, unzip)
  }

  /** The blob written for one file leaves every existing file row reading back what it read before. */
  predicate ReadsKept(rows: seq<Entry>, blobDir: Path, blobs: Blobs, blobs': Blobs,
                      gunzip: seq<byte> -> Option<seq<byte>>, unzip: seq<byte> -> seq<ZipItem>)
  {
    forall e :: e in rows && !e.isDirectory ==> Read(e, blobDir, blobs', gunzip, unzip) == Read(e, blobDir, blobs, gunzip, unzip)
  }

  /**
   * One step of `createBackup` keeps the catalog faithful to the walked contents and
   * collects a row that keeps its node; the blob it may write changes what no existing
   * file row reads back. Writing a blob over one of the same hash is harmless because
   * no two walked contents collide and gzip round-trips.
   */
  lemma StepKeepsFaithful(rows: seq<Entry>, blobDir: Path, blobs: Blobs, digest: seq<byte> -> Digest,
                          gzip: seq<byte> -> seq<byte>, gunzip: seq<byte> -> Option<seq<byte>>,
                          unzip: seq<byte> -> seq<ZipItem>, p: Path, n: Node, newId: int, cs: set<seq<byte>>)
    requires GzipRoundTrips(gzip, gunzip) && NoCollision(digest, cs)
    requires Faithful(rows, blobDir, blobs, digest, gunzip, unzip, cs)
    requires n.File? ==> n.content in cs
    ensures var s := BackupStep(rows, blobDir, blobs, digest, gzip, p, n, newId);
      var rows' := if s.Insert? then rows + [s.entry] else rows;
      var blobs' := if s.Insert? && s.blob.Some? then blobs[BlobFile(blobDir, s.entry.hash) := s.blob.value] else blobs;
      Faithful(rows', blobDir, blobs', digest, gunzip, unzip, cs) &&
      Holds(s.entry, n, blobDir, blobs', gunzip, unzip) &&
      ReadsKept(rows, blobDir, blobs, blobs', gunzip, unzip)
  {
    var s := BackupStep(rows, blobDir, blobs, digest, gzip, p, n, newId);
    if s.Insert? && s.blob.Some? {
      var e := s.entry;
      var c := n.content;
      var f := BlobFile(blobDir, e.hash);
      var blobs' := blobs[f := s.blob.value];
      forall x | x in rows && !x.isDirectory
        ensures Read(x, blobDir, blobs', gunzip, unzip) == Read(x, blobDir, blobs, gunzip, unzip)
      {
        if BlobFile(blobDir, x.hash) == f {
          BlobFileInjective(blobDir, x.hash, e.hash);
          assert Read(x, blobDir, blobs, gunzip, unzip) == Bytes(c);
        }
      }
      StoredFileReadsBack(rows, blobDir, blobs, digest, gzip, gunzip, unzip, p, n, newId);
      var rows' := rows + [e];
      forall x, c' | x in rows' && !x.isDirectory && c' in cs && x.hash == HashText(digest, c')
        ensures Read(x, blobDir, blobs', gunzip, unzip) == Bytes(c')
      {
        if x !in rows {
          assert x == e && c' == c;
        }
      }
    }
  }

  /** With ids increasing, a row is fixed by its id. */
  lemma IdsIdentify(rows: seq<Entry>, a: Entry, b: Entry)
    requires EntryIdsIncreasing(rows) && a in rows && b in rows && a.id == b.id
    ensures a == b
  {
    var i :| 0 <= i < |rows| && rows[i] == a;
    var j :| 0 <= j < |rows| && rows[j] == b;
    assert !(i < j) && !(j < i);
  }

  /**
   * A file restored from a row that reads back faithfully and keeps the backed-up node
   * `n` holds `n`'s content, or agrees with `n` in time and size, or agrees with the row.
   */
  lemma RestoredHolds(e: Entry, n: Node, a: Node, blobDir: Path, blobs: Blobs, digest: seq<byte> -> Digest,
                      gunzip: seq<byte> -> Option<seq<byte>>, unzip: seq<byte> -> seq<ZipItem>, now: int)
    requires !e.isDirectory && n.File?
    requires ReadsBack(e, blobDir, blobs, digest, gunzip, unzip) && Holds(e, n, blobDir, blobs, gunzip, unzip)
    requires Written(e, a, blobDir, blobs, digest, gunzip, unzip, now) || Current(a, e)
    ensures (a.File? && a.content == n.content) || (a.lastModified == n.lastModified && Length(a) == Length(n)) ||
      Current(a, e)
  {
  }

  /**
   * The rows linked to a backup id no old link names are the rows collected for it,
   * since each id names one row.
   */
  lemma LinkedAreCollected(rows: seq<Entry>, collected: seq<Entry>, old_links: set<Link>, id: int, e: Entry)
    requires EntryIdsIncreasing(rows) && (forall w :: w in collected ==> w in rows)
    requires e in rows && Link(id, e.id) in old_links + LinksOf(id, collected) && Link(id, e.id) !in old_links
    ensures e in collected
  {
    var w :| w in collected && w.id == e.id;
    IdsIdentify(rows, e, w);
  }

  /** Every row linked to backup `id` reads back faithfully and keeps the node of `tree` at its path. */
  predicate LinkedHold(rows: seq<Entry>, links: set<Link>, id: int, tree: Tree, blobDir: Path, blobs: Blobs,
                       digest: seq<byte> -> Digest, gunzip: seq<byte> -> Option<seq<byte>>, unzip: seq<byte> -> seq<ZipItem>)
  {
    forall e :: e in rows && Link(id, e.id) in links ==>
      ReadsBack(e, blobDir, blobs, digest, gunzip, unzip) && e.path in tree &&
      e.isDirectory == tree[e.path].Dir? && Holds(e, tree[e.path], blobDir, blobs, gunzip, unzip)
  }

  /**
   * When the rows of a backup hold, every file path `restore` writes from them holds
   * the backed-up content, or the backed-up time and size, or agrees with the row it
   * was restored from.
   */
  lemma RestoredFiles(tree: Tree, rows: seq<Entry>, links: set<Link>, id: int, linked: seq<Entry>, after: Tree,
                      ignored: Path -> bool, blobDir: Path, blobs: Blobs, digest: seq<byte> -> Digest,
                      gunzip: seq<byte> -> Option<seq<byte>>, unzip: seq<byte> -> seq<ZipItem>, now: int)
    requires forall e :: e in linked <==> e in rows && Link(id, e.id) in links
    requires LinkedHold(rows, links, id, tree, blobDir, blobs, digest, gunzip, unzip)
    requires forall k :: k in RestoreMap(linked, ignored) ==> k in after
    requires forall k :: k in RestoreMap(linked, ignored) ==>
      Written(RestoreMap(linked, ignored)[k], after[k], blobDir, blobs, digest, gunzip, unzip, now) ||
      Current(after[k], RestoreMap(linked, ignored)[k])
    ensures forall e :: e in rows && Link(id, e.id) in links && !ignored(e.path) && tree[e.path].File? ==>
      e.path in after &&
      ((after[e.path].File? && after[e.path].content == tree[e.path].content) ||
       (after[e.path].lastModified == tree[e.path].lastModified && Length(after[e.path]) == Length(tree[e.path])) ||
       exists d :: d in rows && Link(id, d.id) in links && d.path == e.path && Current(after[e.path], d))
  {
    var m := RestoreMap(linked, ignored);
    forall e | e in rows && Link(id, e.id) in links && !ignored(e.path) && tree[e.path].File?
      ensures e.path in after
      ensures (after[e.path].File? && after[e.path].content == tree[e.path].content) ||
        (after[e.path].lastModified == tree[e.path].lastModified && Length(after[e.path]) == Length(tree[e.path])) ||
        exists d :: d in rows && Link(id, d.id) in links && d.path == e.path && Current(after[e.path], d)
    {
      var q := e.path;
      assert e in linked;
      var d := m[q];
      assert d in linked && d.path == q;
      RestoredHolds(d, tree[q], after[q], blobDir, blobs, digest, gunzip, unzip, now);
    }
  }

  /**
   * The rows `createBackup` collects under a fresh backup id hold when the catalog reads
   * back faithfully and each collected row keeps its node: the fresh id is linked to
   * those rows and no others.
   */
  lemma CollectedHold(rows: seq<Entry>, walked: seq<Entry>, oldLinks: set<Link>, links: set<Link>, id: int,
                      tree: Tree, blobDir: Path, blobs: Blobs, digest: seq<byte> -> Digest,
                      gunzip: seq<byte> -> Option<seq<byte>>, unzip: seq<byte> -> seq<ZipItem>)
    requires EntryIdsIncreasing(rows) && links == oldLinks + LinksOf(id, walked)
    requires forall l :: l in oldLinks ==> l.backup != id
    requires forall e :: e in walked ==> e in rows && e.path in tree && e.isDirectory == tree[e.path].Dir?
    requires forall e :: e in rows ==> ReadsBack(e, blobDir, blobs, digest, gunzip, unzip)
    requires AllHold(walked, tree, blobDir, blobs, gunzip, unzip)
    ensures LinkedHold(rows, links, id, tree, blobDir, blobs, digest, gunzip, unzip)
  {
    forall e | e in rows && Link(id, e.id) in links
      ensures ReadsBack(e, blobDir, blobs, digest, gunzip, unzip) && e.path in tree
      ensures e.isDirectory == tree[e.path].Dir? && Holds(e, tree[e.path], blobDir, blobs, gunzip, unzip)
    {
      LinkedAreCollected(rows, walked, oldLinks, id, e);
    }
  }

  /** Rows that keep their nodes go on keeping them when no file row reads back anything new. */
  lemma AllHoldKept(list: seq<Entry>, rows: seq<Entry>, all: set<Path>, tree: Tree, blobDir: Path, blobs: Blobs,
                    blobs': Blobs, gunzip: seq<byte> -> Option<seq<byte>>, unzip: seq<byte> -> seq<ZipItem>)
    requires Listed(list, rows, all, tree) && AllHold(list, tree, blobDir, blobs, gunzip, unzip)
    requires ReadsKept(rows, blobDir, blobs, blobs', gunzip, unzip)
    ensures AllHold(list, tree, blobDir, blobs', gunzip, unzip)
  {
    forall e | e in list ensures Holds(e, tree[e.path], blobDir, blobs', gunzip, unzip) {
      if !e.isDirectory {
        assert Read(e, blobDir, blobs', gunzip, unzip) == Read(e, blobDir, blobs, gunzip, unzip);
      }
    }
  }

  class Service {
    /** The blob directory, `blobs` under the configured backup directory. */
    const blobDir: Path
    const ignoredFiles: set<string>
    /** MD5, the gzip codec and the zip codec, as functions on bytes. */
    const digest: seq<byte> -> Digest
    const gzip: seq<byte> -> seq<byte>
    const gunzip: seq<byte> -> Option<seq<byte>>
    const zip: seq<ZipItem> -> seq<byte>
    const unzip: seq<byte> -> seq<ZipItem>

    /** `backup_entries`, `backups` and `backup_entry_backup`, each in id order. */
    var entries: seq<Entry>
    var backups: seq<BackupRow>
    var links: set<Link>
    /** The files under the blob directory. */
    var blobs: Blobs
    /** The next ids SQLite hands out (`AUTOINCREMENT` never reuses one). */
    var nextEntryId: int
    var nextBackupId: int

    /** Ids are fresh and increasing, and every link refers to existing rows (foreign keys). */
    ghost predicate Valid()
      reads this
    {
      EntryIdsIncreasing(entries) && (forall e :: e in entries ==> e.id < nextEntryId) &&
      IdsIncreasing(backups) && (forall b :: b in backups ==> b.id < nextBackupId) &&
      (forall l :: l in links ==> l.backup in BackupIds(backups) && l.entry in IdsOf(entries))
    }

    /** The tables, without the blob store. */
    function Rows(): (seq<Entry>, set<Link>, seq<BackupRow>, int, int)
      reads this
    {
      (entries, links, backups, nextEntryId, nextBackupId)
    }

    /** What deleting entry rows leaves alone. */
    function Kept(): (Blobs, seq<BackupRow>, int, int)
      reads this
    {
      (blobs, backups, nextEntryId, nextBackupId)
    }

    constructor(blobDir: Path, configuredIgnored: set<string>, digest: seq<byte> -> Digest,
                gzip: seq<byte> -> seq<byte>, gunzip: seq<byte> -> Option<seq<byte>>,
                zip: seq<ZipItem> -> seq<byte>, unzip: seq<byte> -> seq<ZipItem>)
      ensures Valid()
      ensures this.blobDir == blobDir && this.ignoredFiles == IgnoredFiles(configuredIgnored)
      ensures this.digest == digest && this.gzip == gzip && this.gunzip == gunzip
      ensures this.zip == zip && this.unzip == unzip
      ensures entries == [] && backups == [] && links == {} && blobs == map[]
    {
      this.blobDir := blobDir;
      this.ignoredFiles := IgnoredFiles(configuredIgnored);
      this.digest := digest;
      this.gzip := gzip;
      this.gunzip := gunzip;
      this.zip := zip;
      this.unzip := unzip;
      entries := [];
      backups := [];
      links := {};
      blobs := map[];
      nextEntryId := 1;
      nextBackupId := 1;
    }

    /** `getBackupInternal`: the row with that id and its linked entries, if there is one. */
    function GetBackup(id: int): (r: Option<Backup>)
      reads this
      ensures r.Some? <==> id in BackupIds(backups)
      ensures r.Some? ==> (r.value.row in backups && r.value.row.id == id &&
        forall e :: e in r.value.entries <==> e in entries && Link(id, e.id) in links)
    {
      var found := First(backups, (b: BackupRow) => b.id == id);
      if found.Some? then Some(Backup(found.value, LinkedEntries(entries, links, id))) else None
    }

    /** `listBackups`: a page of backups, newest first, with SQLite's `LIMIT`/`OFFSET`. */
    function ListBackups(offset: int, limit: int): (r: seq<Backup>)
      reads this
      ensures var page := ListPage(backups, offset, limit);
        |r| == |page| && forall i :: 0 <= i < |r| ==>
          r[i].row == page[i] && r[i].entries == LinkedEntries(entries, links, page[i].id)
    {
      var page := ListPage(backups, offset, limit);
      var rows := entries;
      var ls := links;
      seq(|page|, i requires 0 <= i < |page| => Backup(page[i], LinkedEntries(rows, ls, page[i].id)))
    }

    /** `getLatestBackup`: the last row, which holds the largest id. */
    function LatestBackup(): (r: Option<Backup>)
      reads this
      requires Valid()
      ensures r.None? <==> backups == []
      ensures r.Some? ==> r.value.row in backups && forall b :: b in backups ==> b.id <= r.value.row.id
    {
      if backups == [] then None
      else
        var row := backups[|backups| - 1];
        Some(Backup(row, LinkedEntries(entries, links, row.id)))
    }

    /** `backupCount`. */
    function BackupCount(): (n: nat)
      reads this
      requires Valid()
      ensures n == |BackupIds(backups)|
    {
      CountDistinct(backups);
      |backups|
    }

    /** `check`: true exactly when every entry of the backup is valid. */
    method Check(b: Backup) returns (valid: bool)
      ensures valid <==> forall e :: e in b.entries ==> EntryValid(e, blobDir, blobs)
    {
      valid := true;
      for i := 0 to |b.entries|
        invariant valid <==> forall j :: 0 <= j < i ==> EntryValid(b.entries[j], blobDir, blobs)
      {
        var e := b.entries[i];
        var f := BlobFile(blobDir, e.hash);
        assert EntryValid(e, blobDir, blobs) <==> e.isDirectory || (f in blobs && |blobs[f]| == e.zippedSize);
        if e.isDirectory {
        } else if f !in blobs {
          valid := false;
        } else if |blobs[f]| != e.zippedSize {
          valid := false;
        }
      }
    }

    /** The per-file task of `createBackup`: apply `BackupStep` to the tables and the blob directory. */
    method BackupFile(p: Path, n: Node) returns (e: Entry, s: Step)
      requires Valid()
      modifies this
      ensures Valid()
      ensures s == BackupStep(old(entries), blobDir, old(blobs), digest, gzip, p, n, old(nextEntryId))
      ensures e == s.entry
      ensures s.Reuse? ==> entries == old(entries) && blobs == old(blobs) && nextEntryId == old(nextEntryId)
      ensures s.Insert? ==> entries == old(entries) + [e] && nextEntryId == old(nextEntryId) + 1
      ensures s.Insert? ==> blobs == if s.blob.Some? then old(blobs)[BlobFile(blobDir, e.hash) := s.blob.value] else old(blobs)
      ensures backups == old(backups) && links == old(links) && nextBackupId == old(nextBackupId)
      ensures e in entries && e.path == p && e.isDirectory == n.Dir?
      ensures entries == old(entries) || (entries == old(entries) + [e] && FreshRow(e))
    {
      s := BackupStep(entries, blobDir, blobs, digest, gzip, p, n, nextEntryId);
      e := s.entry;
      if s.Insert? {
        if s.blob.Some? {
          PutBlob(BlobFile(blobDir, e.hash), s.blob.value);
        }
        InsertEntry(e);
      }
    }

    /** Writes the blob file `f`; the tables stay as they are. */
    method PutBlob(f: Path, data: seq<byte>)
      requires Valid()
      modifies this
      ensures Valid()
      ensures blobs == old(blobs)[f := data] && Rows() == old(Rows())
    {
      blobs := blobs[f := data];
    }

    /** `BackupEntryTable.insert`: the new row takes the next id. */
    method InsertEntry(e: Entry)
      requires Valid()
      requires e.id == nextEntryId
      modifies this
      ensures Valid()
      ensures entries == old(entries) + [e] && nextEntryId == old(nextEntryId) + 1
      ensures blobs == old(blobs) && backups == old(backups) && links == old(links) && nextBackupId == old(nextBackupId)
    {
      ghost var rows := entries;
      entries := entries + [e];
      nextEntryId := nextEntryId + 1;
      assert IdsOf(rows) <= IdsOf(entries);
    }

    /**
     * The walk of `createBackup`: one `BackupFile` per kept path, in whatever order the
     * tasks run. Returns the entries collected, one per path, each of its path and kind.
     */
    method BackupWalked(tree: Tree, all: set<Path>) returns (list: seq<Entry>, ghost added: seq<Entry>)
      requires Valid()
      requires all <= tree.Keys
      modifies this
      ensures Valid()
      ensures backups == old(backups) && links == old(links) && nextBackupId == old(nextBackupId)
      ensures entries == old(entries) + added && forall e :: e in added ==> FreshRow(e)
      ensures forall e :: e in list ==> e in entries && e.path in all && e.isDirectory == tree[e.path].Dir?
      ensures forall q :: q in all ==> exists e :: e in list && e.path == q && e.isDirectory == tree[q].Dir?
      ensures var cs := FileContents(tree, all);
        GzipRoundTrips(gzip, gunzip) && NoCollision(digest, cs) && old(Faithful(entries, blobDir, blobs, digest, gunzip, unzip, cs)) ==>
        Faithful(entries, blobDir, blobs, digest, gunzip, unzip, cs) && AllHold(list, tree, blobDir, blobs, gunzip, unzip)
    {
      var todo := all;
      list := [];
      added := [];
      ghost var cover: map<Path, Entry> := map[];
      ghost var cs := FileContents(tree, all);
      ghost var faithful := GzipRoundTrips(gzip, gunzip) && NoCollision(digest, cs) &&
        Faithful(entries, blobDir, blobs, digest, gunzip, unzip, cs);
      while todo != {}
        invariant Valid()
        invariant faithful ==> Faithful(entries, blobDir, blobs, digest, gunzip, unzip, cs)
        invariant faithful ==> AllHold(list, tree, blobDir, blobs, gunzip, unzip)
        invariant todo <= all && forall q :: q in all ==> q in cover || q in todo
        invariant backups == old(backups) && links == old(links) && nextBackupId == old(nextBackupId)
        invariant entries == old(entries) + added && AllFresh(added)
        invariant Listed(list, entries, all, tree)
        invariant Covered(cover, list, tree)
        decreases |todo|
      {
        var p :| p in todo;
        list, added, cover := WalkStep(tree, all, p, list, old(entries), added, cover);
        todo := todo - {p};
      }
      CoveredAll(cover, list, tree, all);
    }

    /** `BackupFile`, as the walk needs it: the entry made or reused, and only appended rows. */
    method BackupOne(p: Path, n: Node, ghost cs: set<seq<byte>>) returns (e: Entry)
      requires Valid()
      modifies this
      ensures Valid()
      ensures backups == old(backups) && links == old(links) && nextBackupId == old(nextBackupId)
      ensures e in entries && e.path == p && e.isDirectory == n.Dir?
      ensures entries == old(entries) || (entries == old(entries) + [e] && FreshRow(e))
      ensures
        GzipRoundTrips(gzip, gunzip) && NoCollision(digest, cs) && (n.File? ==> n.content in cs) &&
        old(Faithful(entries, blobDir, blobs, digest, gunzip, unzip, cs)) ==>
        Faithful(entries, blobDir, blobs, digest, gunzip, unzip, cs) && Holds(e, n, blobDir, blobs, gunzip, unzip) &&
        ReadsKept(old(entries), blobDir, old(blobs), blobs, gunzip, unzip)
    {
      var s;
      e, s := BackupFile(p, n);
      if GzipRoundTrips(gzip, gunzip) && NoCollision(digest, cs) && (n.File? ==> n.content in cs) &&
         old(Faithful(entries, blobDir, blobs, digest, gunzip, unzip, cs)) {
        StepKeepsFaithful(old(entries), blobDir, old(blobs), digest, gzip, gunzip, unzip, p, n, old(nextEntryId), cs);
      }
    }

    /** One task of the walk: back up `p` and record its entry. */
    method WalkStep(tree: Tree, all: set<Path>, p: Path, list: seq<Entry>, ghost rows0: seq<Entry>,
                    ghost added: seq<Entry>, ghost cover: map<Path, Entry>)
      returns (list': seq<Entry>, ghost added': seq<Entry>, ghost cover': map<Path, Entry>)
      requires Valid() && p in all && p in tree
      requires entries == rows0 + added && AllFresh(added)
      requires Listed(list, entries, all, tree) && Covered(cover, list, tree)
      modifies this
      ensures Valid()
      ensures backups == old(backups) && links == old(links) && nextBackupId == old(nextBackupId)
      ensures entries == rows0 + added' && AllFresh(added')
      ensures Listed(list', entries, all, tree) && Covered(cover', list', tree)
      ensures forall q :: q in cover ==> q in cover'
      ensures p in cover'
      ensures var cs := FileContents(tree, all);
        GzipRoundTrips(gzip, gunzip) && NoCollision(digest, cs) &&
        old(Faithful(entries, blobDir, blobs, digest, gunzip, unzip, cs)) && old(AllHold(list, tree, blobDir, blobs, gunzip, unzip)) ==>
        Faithful(entries, blobDir, blobs, digest, gunzip, unzip, cs) && AllHold(list', tree, blobDir, blobs, gunzip, unzip)
    {
      ghost var cs := FileContents(tree, all);
      var e := BackupOne(p, tree[p], cs);
      if GzipRoundTrips(gzip, gunzip) && NoCollision(digest, cs) &&
         old(Faithful(entries, blobDir, blobs, digest, gunzip, unzip, cs)) && old(AllHold(list, tree, blobDir, blobs, gunzip, unzip)) {
        AllHoldKept(list, old(entries), all, tree, blobDir, old(blobs), blobs, gunzip, unzip);
      }
      ListedGrows(list, old(entries), entries, all, tree, e);
      CoveredGrows(cover, list, tree, p, e);
      added' := added;
      if entries != old(entries) {
        assert entries == rows0 + (added + [e]);
        added' := added + [e];
      }
      list' := list + [e];
      cover' := cover[p := e];
    }

    /**
     * `createBackup` of the tree `tree` found under `root` (`rootName` is the root's own
     * name). Every walked path ends up linked to a valid entry of its path and kind;
     * new rows are only appended; the recheck runs on the collected entries, and a
     * failed recheck rolls back the backup row and its links but not the new entries.
     */
    method CreateBackup(root: Path, rootName: string, tree: Tree, comment: string, temporary: bool,
                        accept: Path -> bool, now: int) returns (r: Result<BackupResult, Error>, ghost walked: seq<Entry>)
      requires Valid()
      modifies this
      ensures Valid()
      ensures IsPrefix(Normalize(root), blobDir) ==>
        r == Failure(BlobDirInsideRoot) && entries == old(entries) && blobs == old(blobs)
      ensures |old(entries)| <= |entries| && entries[..|old(entries)|] == old(entries)
      ensures forall e :: e in entries[|old(entries)|..] ==> FreshRow(e)
      ensures r.Failure? ==> backups == old(backups) && links == old(links) && nextBackupId == old(nextBackupId)
      ensures r.Success? ==>
        var id := old(nextBackupId);
        var all := Walked(tree, rootName, Normalize(root), ignoredFiles, accept);
        r.value.backupId == id &&
        backups == old(backups) + [BackupRow(id, r.value.totalSize, r.value.compressedSize, now, comment, temporary)] &&
        links == old(links) + LinksOf(id, walked) &&
        r.value.totalSize == SumSize(walked) && r.value.compressedSize == SumZipped(walked) &&
        r.value.addedSize == SumZipped(entries[|old(entries)|..]) &&
        (forall e :: e in walked ==> (e in entries && EntryValid(e, blobDir, blobs) &&
           e.path in all && e.isDirectory == tree[e.path].Dir?)) &&
        (forall q :: q in all ==> exists e :: e in walked && e.path == q && e.isDirectory == tree[q].Dir?)
      ensures var cs := FileContents(tree, Walked(tree, rootName, Normalize(root), ignoredFiles, accept));
        GzipRoundTrips(gzip, gunzip) && NoCollision(digest, cs) && old(Faithful(entries, blobDir, blobs, digest, gunzip, unzip, cs)) ==>
        Faithful(entries, blobDir, blobs, digest, gunzip, unzip, cs) && AllHold(walked, tree, blobDir, blobs, gunzip, unzip)
    {
      walked := [];
      var nroot := Normalize(root);
      if IsPrefix(nroot, blobDir) {
        r := Failure(BlobDirInsideRoot);
        return;
      }
      var before := |entries|;
      ghost var added;
      var list;
      list, added := BackupWalked(tree, Walked(tree, rootName, nroot, ignoredFiles, accept));
      assert entries[before..] == added;
      var failures := RecheckFailures(list, blobDir, blobs);
      if |failures| > 0 {
        r := Failure(BackupFailed(|failures|));
        return;
      }
      var id := InsertBackup(list, now, comment, temporary);
      walked := list;
      r := Success(BackupResult(id, SumSize(list), SumZipped(list), SumZipped(entries[before..])));
    }

    /**
     * `createBackup` of `tree` followed by `restore` of the new backup into `target`.
     * When both succeed, every walked file the restore does not ignore is back with
     * the content it had when backed up, unless its row was reused for agreeing with
     * it in time and size (it then has that time and size), or the target already
     * held a node agreeing with the backed-up row in time and size, which restore
     * leaves alone. This needs gzip to round-trip, no two walked files to share an
     * MD5, and the catalog to read back faithfully beforehand.
     */
    method BackupThenRestore(root: Path, rootName: string, tree: Tree, comment: string, temporary: bool,
                             accept: Path -> bool, now: int, target: Tree, ignored: Path -> bool,
                             newDirLength: int, restoreTime: int)
      returns (r: Result<BackupResult, Error>, err: Option<Error>, after: Tree)
      requires Valid()
      requires GzipRoundTrips(gzip, gunzip)
      requires var cs := FileContents(tree, Walked(tree, rootName, Normalize(root), ignoredFiles, accept));
        NoCollision(digest, cs) && Faithful(entries, blobDir, blobs, digest, gunzip, unzip, cs)
      modifies this
      ensures Valid()
      ensures r.Failure? ==> err == Some(r.error) && after == target
      ensures r.Success? && err.None? ==>
        forall q :: q in Walked(tree, rootName, Normalize(root), ignoredFiles, accept) && !ignored(q) && tree[q].File? ==>
          q in after &&
          ((after[q].File? && after[q].content == tree[q].content) ||
           (after[q].lastModified == tree[q].lastModified && Length(after[q]) == Length(tree[q])) ||
           exists e :: e in entries && Link(r.value.backupId, e.id) in links && e.path == q && Current(after[q], e))
    {
      ghost var walked;
      ghost var links0, backups0 := links, backups;
      r, walked := CreateBackup(root, rootName, tree, comment, temporary, accept, now);
      if r.Failure? {
        return r, Some(r.error), target;
      }
      var id := r.value.backupId;
      ghost var all := Walked(tree, rootName, Normalize(root), ignoredFiles, accept);
      forall l | l in links0
        ensures l.backup != id
      {
        var row :| row in backups0 && row.id == l.backup;
      }
      CollectedHold(entries, walked, links0, links, id, tree, blobDir, blobs, digest, gunzip, unzip);
      err, after := RestoreHeld(id, target, ignored, newDirLength, restoreTime, tree);
      if err.None? {
        forall q | q in all && !ignored(q) && tree[q].File?
          ensures q in after &&
            ((after[q].File? && after[q].content == tree[q].content) ||
             (after[q].lastModified == tree[q].lastModified && Length(after[q]) == Length(tree[q])) ||
             exists e :: e in entries && Link(r.value.backupId, e.id) in links && e.path == q && Current(after[q], e))
        {
          var w :| w in walked && w.path == q && !w.isDirectory;
          assert w in entries && Link(id, w.id) in links;
        }
      }
    }

    /**
     * `restore` of a backup whose linked rows read back faithfully and keep the nodes of
     * `tree` (see `LinkedHold`): when it succeeds every file of `tree` at the path of a
     * linked row the caller does not ignore holds its content, or its time and size, or
     * agrees in time and size with a linked row of its path, which restore leaves alone.
     */
    method RestoreHeld(id: int, target: Tree, ignored: Path -> bool, newDirLength: int, now: int, ghost tree: Tree)
      returns (err: Option<Error>, after: Tree)
      ensures GetBackup(id).None? ==> err == Some(BackupNotFound) && after == target
      ensures LinkedHold(entries, links, id, tree, blobDir, blobs, digest, gunzip, unzip) && err.None? ==>
        forall e :: e in entries && Link(id, e.id) in links && !ignored(e.path) && tree[e.path].File? ==>
          e.path in after &&
          ((after[e.path].File? && after[e.path].content == tree[e.path].content) ||
           (after[e.path].lastModified == tree[e.path].lastModified && Length(after[e.path]) == Length(tree[e.path])) ||
           exists d :: d in entries && Link(id, d.id) in links && d.path == e.path && Current(after[e.path], d))
    {
      err, after := Restore(id, target, ignored, newDirLength, now);
      if GetBackup(id).Some? && err.None? && LinkedHold(entries, links, id, tree, blobDir, blobs, digest, gunzip, unzip) {
        RestoredFiles(tree, entries, links, id, GetBackup(id).value.entries, after, ignored,
          blobDir, blobs, digest, gunzip, unzip, now);
      }
    }

    /** The transaction that inserts the backup row and links it to the collected entries. */
    method InsertBackup(list: seq<Entry>, now: int, comment: string, temporary: bool) returns (id: int)
      requires Valid()
      requires forall e :: e in list ==> e in entries
      modifies this
      ensures Valid()
      ensures id == old(nextBackupId) && nextBackupId == id + 1
      ensures backups == old(backups) + [BackupRow(id, SumSize(list), SumZipped(list), now, comment, temporary)]
      ensures links == old(links) + LinksOf(id, list)
      ensures entries == old(entries) && blobs == old(blobs) && nextEntryId == old(nextEntryId)
    {
      id := nextBackupId;
      backups := backups + [BackupRow(id, SumSize(list), SumZipped(list), now, comment, temporary)];
      nextBackupId := id + 1;
      links := links + LinksOf(id, list);
    }

    /**
     * `deleteBackupInternal` as written: each entry no other backup links loses its
     * row and its blob, then the backup row goes; link rows follow by cascade.
     * The blobs are removed after the rows here; the final state is the same as the
     * source's interleaving, since neither step reads what the other changes.
     */
    method DeleteBackupAsWritten(b: Backup)
      requires Valid()
      modifies this
      ensures Valid()
      ensures var unshared := UnsharedOf(b.entries, old(links), b.row.id);
        var ids := IdsOf(unshared);
        entries == WithoutIds(old(entries), ids) &&
        links == LinksAfterDelete(old(links), b.row.id, ids) &&
        blobs == WithoutFiles(old(blobs), DeletedBlobsAsWritten(blobDir, unshared)) &&
        backups == WithoutBackup(old(backups), b.row.id)
      ensures nextEntryId == old(nextEntryId) && nextBackupId == old(nextBackupId)
    {
      var unshared := DeleteRows(b);
      DeleteBlobsAsWritten(unshared);
      DropBackupRow(b.row.id);
    }

    /**
     * `deleteBackupInternal` as intended: the same rows go, but a blob is removed only
     * once no remaining row refers to its hash.
     */
    method DeleteBackup(b: Backup)
      requires Valid()
      modifies this
      ensures Valid()
      ensures var unshared := UnsharedOf(b.entries, old(links), b.row.id);
        var ids := IdsOf(unshared);
        entries == WithoutIds(old(entries), ids) &&
        links == LinksAfterDelete(old(links), b.row.id, ids) &&
        blobs == WithoutFiles(old(blobs), DeletedBlobs(blobDir, unshared, entries)) &&
        backups == WithoutBackup(old(backups), b.row.id)
      ensures nextEntryId == old(nextEntryId) && nextBackupId == old(nextBackupId)
    {
      var unshared := DeleteRows(b);
      DeleteUnreferencedBlobs(unshared);
      DropBackupRow(b.row.id);
    }

    /** Deletes the row of every entry of `b` that no other backup links, with its links. */
    method DeleteRows(b: Backup) returns (unshared: seq<Entry>)
      requires Valid()
      modifies this
      ensures Valid()
      ensures unshared == UnsharedOf(b.entries, old(links), b.row.id)
      ensures entries == WithoutIds(old(entries), IdsOf(unshared))
      ensures links == LinksWithoutEntries(old(links), IdsOf(unshared))
      ensures blobs == old(blobs) && backups == old(backups)
      ensures nextEntryId == old(nextEntryId) && nextBackupId == old(nextBackupId)
    {
      unshared := [];
      WithoutNoIds(entries);
      assert IdsOf(unshared) == {};
      for i := 0 to |b.entries|
        invariant unshared == UnsharedOf(b.entries[..i], old(links), b.row.id)
        invariant entries == WithoutIds(old(entries), IdsOf(unshared))
        invariant links == LinksWithoutEntries(old(links), IdsOf(unshared))
        invariant Kept() == old(Kept())
      {
        UnsharedOfPrefix(b.entries, i, old(links), b.row.id);
        unshared := DropIfUnshared(b.entries[i], b.row.id, old(entries), old(links), unshared);
      }
      assert b.entries[..|b.entries|] == b.entries;
      WithoutIdsIncreasing(old(entries), IdsOf(unshared));
      CascadeKeepsLinks(old(entries), old(links), IdsOf(unshared));
    }

    /** One step of `DeleteRows`: `e`'s row goes, and by cascade its links, when no other backup links it. */
    method DropIfUnshared(e: Entry, id: int, ghost entries0: seq<Entry>, ghost links0: set<Link>, unshared: seq<Entry>)
      returns (unshared': seq<Entry>)
      requires entries == WithoutIds(entries0, IdsOf(unshared))
      requires links == LinksWithoutEntries(links0, IdsOf(unshared))
      requires forall u :: u in unshared ==> Unshared(u, links0, id)
      modifies this
      ensures unshared' == unshared + (if Unshared(e, links0, id) then [e] else [])
      ensures entries == WithoutIds(entries0, IdsOf(unshared'))
      ensures links == LinksWithoutEntries(links0, IdsOf(unshared'))
      ensures Kept() == old(Kept())
    {
      UnsharedUnderCascade(e, links0, id, unshared);
      unshared' := unshared;
      if Unshared(e, links, id) {
        WithoutIdsTwice(entries0, IdsOf(unshared), {e.id});
        LinksWithoutEntriesTwice(links0, IdsOf(unshared), {e.id});
        DropEntryRow(e.id);
        assert IdsOf(unshared + [e]) == IdsOf(unshared) + {e.id};
        unshared' := unshared + [e];
      }
    }

    /** Deletes one entry row; its link rows go by cascade. */
    method DropEntryRow(id: int)
      modifies this
      ensures entries == WithoutIds(old(entries), {id})
      ensures links == LinksWithoutEntries(old(links), {id})
      ensures blobs == old(blobs) && backups == old(backups)
      ensures nextEntryId == old(nextEntryId) && nextBackupId == old(nextBackupId)
    {
      entries := WithoutIds(entries, {id});
      links := LinksWithoutEntries(links, {id});
    }

    /** Deletes the blob of every given entry (the source's unconditional `deleteIfExists`). */
    method DeleteBlobsAsWritten(unshared: seq<Entry>)
      modifies this
      ensures blobs == WithoutFiles(old(blobs), DeletedBlobsAsWritten(blobDir, unshared))
      ensures entries == old(entries) && links == old(links) && backups == old(backups)
      ensures nextEntryId == old(nextEntryId) && nextBackupId == old(nextBackupId)
    {
      blobs := KeepBlobsAsWritten(blobs, blobDir, unshared);
    }

    /** Deletes the blob of every given entry whose hash no remaining row uses. */
    method DeleteUnreferencedBlobs(unshared: seq<Entry>)
      modifies this
      ensures blobs == WithoutFiles(old(blobs), DeletedBlobs(blobDir, unshared, entries))
      ensures entries == old(entries) && links == old(links) && backups == old(backups)
      ensures nextEntryId == old(nextEntryId) && nextBackupId == old(nextBackupId)
    {
      blobs := KeepUnreferencedBlobs(blobs, blobDir, unshared, entries);
    }

    /** Deletes the backup row; its link rows go by cascade. */
    method DropBackupRow(id: int)
      requires Valid()
      modifies this
      ensures Valid()
      ensures backups == WithoutBackup(old(backups), id)
      ensures links == set l | l in old(links) && l.backup != id
      ensures entries == old(entries) && blobs == old(blobs)
      ensures nextEntryId == old(nextEntryId) && nextBackupId == old(nextBackupId)
    {
      BackupIdsWithout(backups, id);
      backups := WithoutBackup(backups, id);
      links := set l | l in links && l.backup != id;
    }

    /** `packFiles`' loop: the zip members for `es`, stopping at the first entry it cannot read. */
    method PackMembers(es: seq<Entry>) returns (r: Result<seq<ZipItem>, Error>)
      ensures r == PackItems(es, blobDir, blobs, gunzip, unzip)
    {
      var items: seq<ZipItem> := [];
      for i := 0 to |es|
        invariant |items| == i
        invariant forall j :: 0 <= j < i ==> (es[j].compress != 2 && Read(es[j], blobDir, blobs, gunzip, unzip).Bytes? &&
          items[j] == PackItem(es[j], Read(es[j], blobDir, blobs, gunzip, unzip).data))
      {
        var e := es[i];
        var st := Read(e, blobDir, blobs, gunzip, unzip);
        if e.compress == 2 || !st.Bytes? {
          PackItemsFirstFailure(es, blobDir, blobs, gunzip, unzip, i);
          return Failure(PackError(e, st));
        }
        items := items + [PackItem(e, st.data)];
      }
      PackItemsSucceeds(es, blobDir, blobs, gunzip, unzip);
      var packed := PackItems(es, blobDir, blobs, gunzip, unzip).value;
      forall j | 0 <= j < |es| ensures packed[j] == items[j] {
        PackItemsAt(es, blobDir, blobs, gunzip, unzip, j);
      }
      assert packed == items;
      r := Success(items);
    }

    /**
     * `packBackup`: when at least ten files of the backup qualify, zip them into one
     * blob named by the archive's MD5 (written only if absent) and point their rows at it.
     * Returns the archive's hash, or `None` when there was too little to pack.
     */
    method PackBackup(b: Backup) returns (r: Result<Option<string>, Error>)
      requires Valid()
      modifies this
      ensures Valid()
      ensures var cand := PackCandidates(b.entries, old(links), b.row.id);
        var packed := PackItems(cand, blobDir, old(blobs), gunzip, unzip);
        if |cand| < 10 then r == Success(None) && entries == old(entries) && blobs == old(blobs)
        else if packed.Failure? then r == Failure(packed.error) && entries == old(entries) && blobs == old(blobs)
        else
          var data := zip(packed.value);
          var h := HashText(digest, data);
          var f := BlobFile(blobDir, h);
          r == Success(Some(h)) &&
          blobs == (if f in old(blobs) then old(blobs) else old(blobs)[f := data]) &&
          entries == PackRows(old(entries), IdsOf(cand), h, |blobs[f]|)
      ensures links == old(links) && backups == old(backups)
      ensures nextEntryId == old(nextEntryId) && nextBackupId == old(nextBackupId)
    {
      var cand := PackCandidates(b.entries, links, b.row.id);
      if |cand| < 10 {
        return Success(None);
      }
      var packed := PackMembers(cand);
      if packed.Failure? {
        return Failure(packed.error);
      }
      var data := zip(packed.value);
      var h := HashText(digest, data);
      var f := BlobFile(blobDir, h);
      if f !in blobs {
        blobs := blobs[f := data];
      }
      PointRowsAt(IdsOf(cand), h, |blobs[f]|);
      r := Success(Some(h));
    }

    /**
     * The second pass of `restore`: one task per restored path, in any order. Returns
     * the paths whose task failed and the tree left: every other path is written as its
     * entry promises or, already agreeing with it in time and size, left as it was;
     * paths the backup does not restore are untouched; and nothing appears but restored
     * paths and the directories created above them.
     */
    method SecondPass(pruned: Tree, m: map<Path, Entry>, newDirLength: int, now: int)
      returns (failed: set<Path>, after: Tree)
      ensures failed <= m.Keys
      ensures forall k :: k in m && k !in failed ==> k in after
      ensures forall k :: k in m && k !in failed ==>
        Written(m[k], after[k], blobDir, blobs, digest, gunzip, unzip, now) ||
        (Current(after[k], m[k]) && (k in pruned ==> after[k] == pruned[k]))
      ensures forall q :: q in pruned && q !in m ==> q in after && after[q] == pruned[q]
      ensures forall k :: (k in m && k in pruned && Current(pruned[k], m[k])) ==> k in after && after[k] == pruned[k]
      ensures forall q :: q in after ==> q in pruned || q in m || exists k :: k in m && q in Ancestors(k)
    {
      var keys := m.Keys;
      failed := {};
      after := pruned;
      while keys != {}
        invariant PassSoFar(pruned, m, keys, failed, after, blobDir, blobs, digest, gunzip, unzip, now)
        decreases |keys|
      {
        var k :| k in keys;
        var res := ApplyRestore(after, k, m[k], blobDir, blobs, digest, gunzip, unzip, newDirLength, now);
        PassStep(pruned, m, keys, failed, after, blobDir, blobs, digest, gunzip, unzip, now, k, res);
        if !res.0 {
          failed := failed + {k};
        }
        after := res.1;
        keys := keys - {k};
      }
    }

    /**
     * `restore`: look the backup up, prune the target (first pass), then run a task
     * per restored path (second pass). When a task fails the restore fails with that
     * path, the tree keeping whatever the other tasks did.
     */
    method Restore(id: int, target: Tree, ignored: Path -> bool, newDirLength: int, now: int)
      returns (err: Option<Error>, after: Tree)
      ensures GetBackup(id).None? ==> err == Some(BackupNotFound) && after == target
      ensures GetBackup(id).Some? ==>
        var m := RestoreMap(GetBackup(id).value.entries, ignored);
        var pruned := Pruned(target, target.Keys - {[]}, Decide(target, m, ignoredFiles, ignored));
        (err.None? ==> forall k :: k in m ==>
           k in after &&
           (Written(m[k], after[k], blobDir, blobs, digest, gunzip, unzip, now) ||
            (Current(after[k], m[k]) && (k in pruned ==> after[k] == pruned[k])))) &&
        (err.Some? ==> err.value.RestoreFailed? && err.value.path in m) &&
        (forall q :: q in pruned && q !in m ==> q in after && after[q] == pruned[q]) &&
        (forall k :: (k in m && k in pruned && Current(pruned[k], m[k])) ==> k in after && after[k] == pruned[k]) &&
        (forall q :: q in after ==> q in pruned || q in m || exists k :: k in m && q in Ancestors(k))
    {
      var b := GetBackup(id);
      if b.None? {
        return Some(BackupNotFound), target;
      }
      var m := RestoreMap(b.value.entries, ignored);
      var pruned := FirstPass(target, m, ignoredFiles, ignored);
      var failed;
      failed, after := SecondPass(pruned, m, newDirLength, now);
      if failed == {} {
        err := None;
      } else {
        var k :| k in failed;
        err := Some(RestoreFailed(k));
      }
    }

    /** The row update of `packBackup`: the given rows now name the archive. */
    method PointRowsAt(ids: set<int>, h: string, blobSize: int)
      requires Valid()
      modifies this
      ensures Valid()
      ensures entries == PackRows(old(entries), ids, h, blobSize)
      ensures blobs == old(blobs) && links == old(links) && backups == old(backups)
      ensures nextEntryId == old(nextEntryId) && nextBackupId == old(nextBackupId)
    {
      var rows := PackRows(entries, ids, h, blobSize);
      PackRowsKeepIds(entries, ids, h, blobSize);
      entries := rows;
    }

    /**
     * `importZipArchive`: store the blob of every commented member under its hash
     * unless one is already there; a comment that is not the expected JSON stops it.
     */
    method ImportZipArchive(items: seq<ZipItem>) returns (err: Option<Error>)
      modifies this
      ensures blobs == ImportBlobs(blobDir, old(blobs), items).0
      ensures err == if ImportBlobs(blobDir, old(blobs), items).1 then None else Some(MalformedComment)
      ensures entries == old(entries) && links == old(links) && backups == old(backups)
      ensures nextEntryId == old(nextEntryId) && nextBackupId == old(nextBackupId)
    {
      var i := 0;
      while i < |items|
        invariant 0 <= i <= |items|
        invariant ImportBlobs(blobDir, blobs, items[i..]) == ImportBlobs(blobDir, old(blobs), items)
        invariant Rows() == old(Rows())
      {
        var z := items[i];
        assert items[i..][1..] == items[i + 1..];
        match z.comment {
          case None =>
          case Some(Unparsable) =>
            return Some(MalformedComment);
          case Some(Comment(h, _)) =>
            var f := BlobFile(blobDir, h);
            if f !in blobs {
              blobs := blobs[f := z.content];
            }
        }
        i := i + 1;
      }
      err := None;
    }
  }

  lemma BackupIdsSnoc(rows: seq<BackupRow>, last: BackupRow)
    ensures BackupIds(rows + [last]) == BackupIds(rows) + {last.id}
  {
  }

  /** With ids increasing, the rows are distinct ids, one each. */
  lemma {:induction false} CountDistinct(rows: seq<BackupRow>)
    ensures IdsIncreasing(rows) ==> |BackupIds(rows)| == |rows|
    decreases |rows|
  {
    if rows != [] && IdsIncreasing(rows) {
      var init := rows[..|rows| - 1];
      var last := rows[|rows| - 1];
      CountDistinct(init);
      assert IdsIncreasing(init);
      assert rows == init + [last];
      BackupIdsSnoc(init, last);
      LastIdNew(rows);
    }
  }

  /** With ids increasing, the last row's id is not among the ids before it. */
  lemma LastIdNew(rows: seq<BackupRow>)
    requires rows != [] && IdsIncreasing(rows)
    ensures rows[|rows| - 1].id !in BackupIds(rows[..|rows| - 1])
  {
    var init := rows[..|rows| - 1];
    forall i | 0 <= i < |init| ensures init[i].id != rows[|rows| - 1].id {
      assert rows[i] == init[i];
    }
  }
}
