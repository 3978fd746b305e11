/**
 * The rows, queries and per-item decisions of the common `BackupDatabaseService`
 * (the `backup_entries` table, `BackupEntry.valid`, the stream a blob is read
 * through, the two dedup lookups of `createBackup`, the post-commit recheck, the
 * unlink rule of `deleteBackupInternal` and the per-path rules of `restore`).
 * The service object that applies them to its tables is in module `CommonService`.
 */
module CommonCatalog {
  import opened Wrappers
  import opened Paths
  import opened Hex
  import opened Store

  /**
   * A row of `backup_entries` read as a `BackupEntry`.
   * `compress`: 0 stored as is, 1 gzip, 2 one member of a packed zip blob.
   */
  datatype Entry = Entry(
    id: int, path: Path, size: int, zippedSize: int, lastModified: int,
    isDirectory: bool, hash: string, compress: int)

  /** A `Backup`: its row and the entries linked to it. */
  datatype Backup = Backup(row: BackupRow, entries: seq<Entry>)

  /** `BackupResult` of a successful `createBackup` (the elapsed time is not modelled). */
  datatype BackupResult = BackupResult(backupId: int, totalSize: int, compressedSize: int, addedSize: int)

  datatype Error =
    | BlobDirInsideRoot          // "Blob directory cannot be inside the backup directory"
    | BackupFailed(count: nat)   // "Backup failed, n files not backed up"
    | BackupNotFound
    | AlreadyPacked
    | BlobNotFound(path: Path)
    | MalformedComment
    | UnknownCompress(compress: int)
    | RestoreFailed(path: Path)  // a restore task that failed all its attempts

  /** The names the common service never backs up nor deletes; "" is how the root may be named. */
  const BuiltinIgnoredFiles: set<string> :=
    {"", "x_backup.db.back", "x_backup.db", "x_backup.db-wal", "x_backup.db-shm", "x_backup.db-journal"}

  /** `ignoredFiles`: the built-in names plus the configured ones. */
  function IgnoredFiles(configured: set<string>): (r: set<string>)
    ensures BuiltinIgnoredFiles <= r && configured <= r
    ensures forall name :: name in r ==> name in BuiltinIgnoredFiles || name in configured
  {
    BuiltinIgnoredFiles + configured
  }

  /** The hash column of a file: the MD5 of its content in lower-case hex. */
  function HashText(digest: seq<byte> -> Digest, content: seq<byte>): (h: string)
    ensures |h| == 32 && IsLowerHex(h)
  {
    DigestText(digest(content));
    Encode(digest(content))
  }

  /** `BackupEntry.valid`: a directory, or a file whose blob exists with exactly `zippedSize` bytes. */
  predicate EntryValid(e: Entry, blobDir: Path, blobs: Blobs)
  {
    e.isDirectory ||
    (BlobFile(blobDir, e.hash) in blobs && |blobs[BlobFile(blobDir, e.hash)]| == e.zippedSize)
  }

  /** The first element of `s` satisfying `f` (`firstOrNull`). */
  function First<T(==)>(s: seq<T>, f: T -> bool): (r: Option<T>)
    ensures r.None? <==> forall i :: 0 <= i < |s| ==> !f(s[i])
    ensures r.Some? ==> r.value in s && f(r.value)
    ensures r.Some? ==> exists i :: 0 <= i < |s| && s[i] == r.value && forall j :: 0 <= j < i ==> !f(s[j])
    decreases |s|
  {
    if s == [] then None
    else if f(s[0]) then Some(s[0])
    else
      var r := First(s[1..], f);
      assert r.Some? ==> exists i :: 0 < i < |s| && s[i] == r.value && forall j :: 0 <= j < i ==> !f(s[j]) by {
        if r.Some? {
          var i :| 0 <= i < |s[1..]| && s[1..][i] == r.value && forall j :: 0 <= j < i ==> !f(s[1..][j]);
          assert s[i + 1] == r.value;
          assert forall j :: 0 < j < i + 1 ==> !f(s[j]) by {
            forall j | 0 < j < i + 1 ensures !f(s[j]) {
              assert s[j] == s[1..][j - 1];
            }
          }
        }
      }
      r
  }

  /** The first lookup of `createBackup`: same path and kind, and for a file same size and lastModified, and valid. */
  predicate SameUnchanged(e: Entry, p: Path, n: Node, blobDir: Path, blobs: Blobs)
  {
    e.path == p && e.isDirectory == n.Dir? &&
    (n.File? ==> e.size == Length(n) && e.lastModified == n.lastModified) &&
    EntryValid(e, blobDir, blobs)
  }

  /** The second lookup: same path and kind, same hash, and valid. */
  predicate SameContent(e: Entry, p: Path, n: Node, hash: string, blobDir: Path, blobs: Blobs)
  {
    e.path == p && e.isDirectory == n.Dir? && e.hash == hash && EntryValid(e, blobDir, blobs)
  }

  /** What backing up one walked path does to the catalog. */
  datatype Step = Reuse(entry: Entry) | Insert(entry: Entry, blob: Option<seq<byte>>)

  /**
   * The per-file work of `createBackup`: reuse a valid row of the same path and kind
   * that is unchanged or has the same content, else store the file (gzipped when
   * longer than 1024 bytes) and insert a row with id `newId`.
   */
  function BackupStep(
    rows: seq<Entry>, blobDir: Path, blobs: Blobs, digest: seq<byte> -> Digest,
    gzip: seq<byte> -> seq<byte>, p: Path, n: Node, newId: int): (s: Step)
    ensures s.Reuse? ==>
      s.entry in rows && s.entry.path == p && s.entry.isDirectory == n.Dir? &&
      EntryValid(s.entry, blobDir, blobs) &&
      (n.File? ==> (s.entry.size == Length(n) && s.entry.lastModified == n.lastModified) ||
                   s.entry.hash == HashText(digest, n.content))
    ensures s.Insert? ==> var e := s.entry;
      e.id == newId && e.path == p && e.size == Length(n) && e.lastModified == n.lastModified &&
      e.isDirectory == n.Dir? && e.compress == (if Length(n) > 1024 then 1 else 0) &&
      (n.Dir? ==> e.hash == "" && e.zippedSize == 0 && s.blob.None?) &&
      (n.File? ==> (e.hash == HashText(digest, n.content) && s.blob.Some? &&
         s.blob.value == (if e.compress == 1 then gzip(n.content) else n.content) &&
         e.zippedSize == |s.blob.value|))
  {
    var existing := First(rows, e => SameUnchanged(e, p, n, blobDir, blobs));
    if existing.Some? && (n.Dir? || BlobFile(blobDir, existing.value.hash) in blobs) then
      Reuse(existing.value)
    else
      var md5 := if n.File? then HashText(digest, n.content) else "";
      var same := First(rows, e => SameContent(e, p, n, md5, blobDir, blobs));
      if same.Some? then
        Reuse(same.value)
      else
        var gz := Length(n) > 1024;
        var compress := if gz then 1 else 0;
        if n.File? then
          var data := if gz then gzip(n.content) else n.content;
          Insert(Entry(newId, p, Length(n), |data|, n.lastModified, false, md5, compress), Some(data))
        else
          Insert(Entry(newId, p, Length(n), 0, n.lastModified, true, md5, compress), None)
  }

  /** A new row is inserted only when no valid row of the path is unchanged or holds the same content. */
  lemma InsertOnlyWhenNoReuse(
    rows: seq<Entry>, blobDir: Path, blobs: Blobs, digest: seq<byte> -> Digest,
    gzip: seq<byte> -> seq<byte>, p: Path, n: Node, newId: int)
    requires BackupStep(rows, blobDir, blobs, digest, gzip, p, n, newId).Insert?
    ensures forall e :: e in rows ==> !SameUnchanged(e, p, n, blobDir, blobs)
    ensures n.File? ==> forall e :: e in rows ==> !SameContent(e, p, n, HashText(digest, n.content), blobDir, blobs)
  {
  }

  /** A file whose valid row is unchanged in size and lastModified costs no row and no blob write. */
  lemma UnchangedFileIsReused(
    rows: seq<Entry>, blobDir: Path, blobs: Blobs, digest: seq<byte> -> Digest,
    gzip: seq<byte> -> seq<byte>, p: Path, n: Node, newId: int, e: Entry)
    requires e in rows && SameUnchanged(e, p, n, blobDir, blobs)
    ensures BackupStep(rows, blobDir, blobs, digest, gzip, p, n, newId).Reuse?
  {
  }

  /** A file whose content is already stored under a valid row of its path costs no row and no blob write. */
  lemma SameContentIsReused(
    rows: seq<Entry>, blobDir: Path, blobs: Blobs, digest: seq<byte> -> Digest,
    gzip: seq<byte> -> seq<byte>, p: Path, n: Node, newId: int, e: Entry)
    requires n.File? && e in rows && SameContent(e, p, n, HashText(digest, n.content), blobDir, blobs)
    ensures BackupStep(rows, blobDir, blobs, digest, gzip, p, n, newId).Reuse?
  {
  }

  function SumSize(es: seq<Entry>): int
    decreases |es|
  {
    if es == [] then 0 else SumSize(es[..|es| - 1]) + es[|es| - 1].size
  }

  function SumZipped(es: seq<Entry>): int
    decreases |es|
  {
    if es == [] then 0 else SumZipped(es[..|es| - 1]) + es[|es| - 1].zippedSize
  }

  /** The totals of a backup add up over its entries one by one. */
  lemma SumsAppend(es: seq<Entry>, e: Entry)
    ensures SumSize(es + [e]) == SumSize(es) + e.size
    ensures SumZipped(es + [e]) == SumZipped(es) + e.zippedSize
  {
    assert (es + [e])[..|es|] == es;
  }

  /** The recheck after linking: the non-directory entries whose blob is missing or of the wrong size. */
  function RecheckFailures(es: seq<Entry>, blobDir: Path, blobs: Blobs): (r: seq<Entry>)
    ensures forall e :: e in r <==> e in es && !EntryValid(e, blobDir, blobs)
    decreases |es|
  {
    if es == [] then []
    else (if EntryValid(es[0], blobDir, blobs) then [] else [es[0]]) + RecheckFailures(es[1..], blobDir, blobs)
  }

  /**
   * The recheck as written: it filters `backup.entries` of the `Backup` read back
   * right after the row insert, before any link row exists, so it inspects no entry.
   */
  function RecheckFailuresAsWritten(linkedAtInsert: seq<Entry>, blobDir: Path, blobs: Blobs): (r: seq<Entry>)
  {
    RecheckFailures(linkedAtInsert, blobDir, blobs)
  }

  /** The entries linked to backup `id`, in row order (`toBackup`). */
  function LinkedEntries(rows: seq<Entry>, links: set<Link>, id: int): (r: seq<Entry>)
    ensures forall e :: e in r <==> e in rows && Link(id, e.id) in links
    ensures |r| <= |rows|
    decreases |rows|
  {
    if rows == [] then []
    else (if Link(id, rows[0].id) in links then [rows[0]] else []) + LinkedEntries(rows[1..], links, id)
  }

  /** The recheck as written never fails: no link of the new backup exists yet when its entries are read. */
  lemma RecheckAsWrittenNeverFails(rows: seq<Entry>, links: set<Link>, id: int, blobDir: Path, blobs: Blobs)
    requires forall l :: l in links ==> l.backup != id
    ensures RecheckFailuresAsWritten(LinkedEntries(rows, links, id), blobDir, blobs) == []
  {
  }

  /** A linked entry whose blob was overwritten with other content is caught by the corrected recheck only. */
  lemma RecheckDiscrepancy()
    ensures var blobDir: Path := ["blobs"];
      var e := Entry(1, ["a"], 3, 3, 0, false, "abcd", 0);
      var blobs := map[BlobFile(blobDir, "abcd") := [1, 2, 3, 4, 5]];
      RecheckFailuresAsWritten(LinkedEntries([e], {}, 7), blobDir, blobs) == [] &&
      RecheckFailures([e], blobDir, blobs) == [e]
  {
    var blobDir: Path := ["blobs"];
    var e := Entry(1, ["a"], 3, 3, 0, false, "abcd", 0);
    var blobs := map[BlobFile(blobDir, "abcd") := [1, 2, 3, 4, 5]];
    assert !EntryValid(e, blobDir, blobs);
    assert LinkedEntries([e], {}, 7) == [];
  }

  /** The `id` of the entries in `es`. */
  function IdsOf(es: seq<Entry>): set<int>
  {
    set e | e in es :: e.id
  }

  /** An entry of the deleted backup that no other backup links (`deleteBackupInternal`'s condition). */
  predicate Unshared(e: Entry, links: set<Link>, backupId: int)
  {
    forall l :: l in links && l.entry == e.id ==> l.backup == backupId
  }

  /** The entries of `es` that no other backup links. */
  function UnsharedOf(es: seq<Entry>, links: set<Link>, backupId: int): (r: seq<Entry>)
    ensures forall e :: e in r <==> e in es && Unshared(e, links, backupId)
    decreases |es|
  {
    if es == [] then []
    else (if Unshared(es[0], links, backupId) then [es[0]] else []) + UnsharedOf(es[1..], links, backupId)
  }

  /** The rows left once the rows with the given ids are deleted. */
  function WithoutIds(rows: seq<Entry>, ids: set<int>): (r: seq<Entry>)
    ensures forall e :: e in r <==> e in rows && e.id !in ids
    ensures |r| <= |rows|
    decreases |rows|
  {
    if rows == [] then []
    else (if rows[0].id in ids then [] else [rows[0]]) + WithoutIds(rows[1..], ids)
  }

  /** The blob files deleted as written: the blob of every unshared entry. */
  function DeletedBlobsAsWritten(blobDir: Path, unshared: seq<Entry>): set<Path>
  {
    set e | e in unshared :: BlobFile(blobDir, e.hash)
  }

  /** The blob files deleted when only the blobs no remaining row refers to are removed. */
  function DeletedBlobs(blobDir: Path, unshared: seq<Entry>, remaining: seq<Entry>): (r: set<Path>)
    ensures forall e :: e in remaining ==> BlobFile(blobDir, e.hash) !in r
  {
    var r := set e | e in unshared && (forall f :: f in remaining ==> f.hash != e.hash) :: BlobFile(blobDir, e.hash);
    assert forall e :: e in remaining ==> BlobFile(blobDir, e.hash) !in r by {
      forall e | e in remaining ensures BlobFile(blobDir, e.hash) !in r {
        if BlobFile(blobDir, e.hash) in r {
          var u :| u in unshared && (forall f :: f in remaining ==> f.hash != u.hash) &&
            BlobFile(blobDir, u.hash) == BlobFile(blobDir, e.hash);
          BlobFileInjective(blobDir, u.hash, e.hash);
        }
      }
    }
    r
  }

  /** The links left: none of the deleted backup and none of a deleted entry (ON DELETE CASCADE). */
  function LinksAfterDelete(links: set<Link>, backupId: int, deletedIds: set<int>): set<Link>
  {
    set l | l in links && l.backup != backupId && l.entry !in deletedIds
  }

  /** The rows of `backups` left once backup `id` is deleted. */
  function WithoutBackup(rows: seq<BackupRow>, id: int): (r: seq<BackupRow>)
    ensures forall b :: b in r <==> b in rows && b.id != id
    ensures IdsIncreasing(rows) ==> IdsIncreasing(r)
    decreases |rows|
  {
    if rows == [] then []
    else
      var rest := WithoutBackup(rows[1..], id);
      var r := (if rows[0].id == id then [] else [rows[0]]) + rest;
      assert IdsIncreasing(rows) ==> IdsIncreasing(r) by {
        if IdsIncreasing(rows) {
          assert IdsIncreasing(rows[1..]);
          forall j | 0 <= j < |rest| ensures rows[0].id < rest[j].id {
            assert rest[j] in rows[1..];
          }
        }
      }
      r
  }

  /**
   * Deleting backup `b` keeps every other backup intact when blobs are removed only
   * once no remaining row refers to them: each of its linked entries survives with its
   * blob, so `check` still holds of it.
   */
  lemma DeleteKeepsOtherBackupsValid(
    rows: seq<Entry>, links: set<Link>, blobDir: Path, blobs: Blobs, b: Backup, other: int)
    requires other != b.row.id
    requires forall e :: e in LinkedEntries(rows, links, other) ==> EntryValid(e, blobDir, blobs)
    ensures var unshared := UnsharedOf(b.entries, links, b.row.id);
      var remaining := WithoutIds(rows, IdsOf(unshared));
      var links' := LinksAfterDelete(links, b.row.id, IdsOf(unshared));
      var blobs' := map q | q in blobs && q !in DeletedBlobs(blobDir, unshared, remaining) :: blobs[q];
      LinkedEntries(remaining, links', other) == LinkedEntries(rows, links, other) &&
      forall e :: e in LinkedEntries(remaining, links', other) ==> EntryValid(e, blobDir, blobs')
  {
    var unshared := UnsharedOf(b.entries, links, b.row.id);
    var ids := IdsOf(unshared);
    var remaining := WithoutIds(rows, ids);
    var links' := LinksAfterDelete(links, b.row.id, ids);
    var deleted := DeletedBlobs(blobDir, unshared, remaining);
    var blobs' := map q | q in blobs && q !in deleted :: blobs[q];
    LinkedSurvive(rows, links, ids, b.row.id, other, unshared);
    forall e | e in LinkedEntries(remaining, links', other) ensures EntryValid(e, blobDir, blobs') {
      assert e in remaining;
    }
  }

  /** The entries linked to another backup are neither unlinked nor deleted. */
  lemma {:induction false} LinkedSurvive(
    rows: seq<Entry>, links: set<Link>, ids: set<int>, id: int, other: int, unshared: seq<Entry>)
    requires other != id
    requires ids == IdsOf(unshared)
    requires forall u :: u in unshared ==> Unshared(u, links, id)
    ensures LinkedEntries(WithoutIds(rows, ids), LinksAfterDelete(links, id, ids), other) == LinkedEntries(rows, links, other)
    decreases |rows|
  {
    if rows != [] {
      LinkedSurvive(rows[1..], links, ids, id, other, unshared);
      var e := rows[0];
      var links' := LinksAfterDelete(links, id, ids);
      var w := WithoutIds(rows, ids);
      var w' := WithoutIds(rows[1..], ids);
      assert w == (if e.id in ids then [] else [e]) + w';
      if e.id in ids {
        var u :| u in unshared && u.id == e.id;
        assert Link(other, e.id) !in links;
        assert w == w';
      } else {
        assert Link(other, e.id) in links' <==> Link(other, e.id) in links;
        assert w[0] == e && w[1..] == w';
      }
    }
  }

  /**
   * As written, deleting a backup can break another one: entries of different paths
   * may share one blob, and the blob is removed with the unshared entry even though
   * the entry kept for backup 1 still refers to it.
   */
  lemma DeleteAsWrittenBreaksOtherBackup()
    ensures var blobDir: Path := ["blobs"];
      var h := "0123456789abcdef0123456789abcdef";
      var a := Entry(1, ["a"], 3, 3, 0, false, h, 0);
      var c := Entry(2, ["c"], 3, 3, 0, false, h, 0);
      var rows := [a, c];
      var links := {Link(1, 1), Link(2, 1), Link(2, 2)};
      var blobs := map[BlobFile(blobDir, h) := [7, 7, 7]];
      var b := Backup(BackupRow(2, 6, 6, 0, "", false), [a, c]);
      var unshared := UnsharedOf(b.entries, links, 2);
      var blobsAsWritten := map q | q in blobs && q !in DeletedBlobsAsWritten(blobDir, unshared) :: blobs[q];
      var remaining := WithoutIds(rows, IdsOf(unshared));
      var blobsCorrected := map q | q in blobs && q !in DeletedBlobs(blobDir, unshared, remaining) :: blobs[q];
      a in LinkedEntries(remaining, LinksAfterDelete(links, 2, IdsOf(unshared)), 1) &&
      EntryValid(a, blobDir, blobs) &&
      !EntryValid(a, blobDir, blobsAsWritten) &&
      EntryValid(a, blobDir, blobsCorrected)
  {
    var blobDir: Path := ["blobs"];
    var h := "0123456789abcdef0123456789abcdef";
    var a := Entry(1, ["a"], 3, 3, 0, false, h, 0);
    var c := Entry(2, ["c"], 3, 3, 0, false, h, 0);
    var links := {Link(1, 1), Link(2, 1), Link(2, 2)};
    assert !Unshared(a, links, 2) by { assert Link(1, 1) in links; }
    assert Unshared(c, links, 2);
    var unshared := UnsharedOf([a, c], links, 2);
    assert [a, c][1..] == [c] && [c][1..] == [];
    assert UnsharedOf([c], links, 2) == [c] + UnsharedOf([], links, 2);
    assert UnsharedOf([a, c], links, 2) == [] + UnsharedOf([c], links, 2);
    assert unshared == [c];
    assert IdsOf(unshared) == {2};
    var remaining := WithoutIds([a, c], {2});
    assert WithoutIds([c], {2}) == [] + WithoutIds([], {2});
    assert remaining == [a] + WithoutIds([c], {2});
    assert remaining == [a];
    assert DeletedBlobs(blobDir, unshared, remaining) == {};
    assert DeletedBlobsAsWritten(blobDir, unshared) == {BlobFile(blobDir, h)};
    assert Link(1, 1) in LinksAfterDelete(links, 2, {2});
  }

  // ---------------------------------------------------------------------------
  // Reading a blob back (`getInputStreamInternal`)

  /** The JSON comment `{"hash": …, "id": …}` of a packed or exported zip member. */
  datatype Comment = Comment(hash: string, id: int) | Unparsable

  /** A member of a zip archive: its name, its bytes, its modification time and its comment. */
  datatype ZipItem = ZipItem(name: string, content: seq<byte>, lastModified: int, comment: Option<Comment>)

  /** What reading an entry's blob yields. */
  datatype Stream =
    | Missing            // `null`: the blob file does not exist
    | Bytes(data: seq<byte>)
    | Closed             // a stream closed before it is returned; reading it fails
    | Unreadable         // "Unknown compress type"

  /** The string form of a relative path, names joined with '/'. */
  function PathString(p: Path): string
  {
    if p == [] then "" else Join(p, '/')
  }

  /** The bytes of the first member named `name`; the scan ends on an empty stream when none is. */
  function MemberContent(items: seq<ZipItem>, name: string): (r: seq<byte>)
    ensures (exists i :: 0 <= i < |items| && items[i].name == name) ||  r == []
    decreases |items|
  {
    if items == [] then []
    else if items[0].name == name then items[0].content
    else
      var r := MemberContent(items[1..], name);
      assert r != [] ==> exists i :: 0 <= i < |items| && items[i].name == name by {
        if r != [] {
          var i :| 0 <= i < |items| - 1 && items[1..][i].name == name;
          assert items[i + 1].name == name;
        }
      }
      r
  }

  /** The member named `name` when it is the only one of that name at or before index `i`. */
  lemma {:induction false} MemberContentAt(items: seq<ZipItem>, i: nat, name: string)
    requires i < |items| && items[i].name == name
    requires forall j :: 0 <= j < i ==> items[j].name != name
    ensures MemberContent(items, name) == items[i].content
    decreases i
  {
    if i > 0 {
      MemberContentAt(items[1..], i - 1, name);
    }
  }

  /**
   * The stream `getInputStreamInternal` returns, as written: for a packed entry
   * (`compress` 2) the zip stream is closed by `use` before it is returned. A blob
   * that is not gzip data (`gunzip` gives `None`) raises `ZipException`, which is
   * caught and reported as no stream.
   */
  function ReadAsWritten(e: Entry, blobDir: Path, blobs: Blobs, gunzip: seq<byte> -> Option<seq<byte>>): (r: Stream)
  {
    var blob := BlobFile(blobDir, e.hash);
    if blob !in blobs then Missing
    else if e.compress == 0 then Bytes(blobs[blob])
    else if e.compress == 1 then
      match gunzip(blobs[blob])
        case Some(data) => Bytes(data)
        case None => Missing
    else if e.compress == 2 then Closed
    else Unreadable
  }

  /** The stream as intended: a packed entry reads as the content of its own zip member. */
  function Read(e: Entry, blobDir: Path, blobs: Blobs, gunzip: seq<byte> -> Option<seq<byte>>,
                unzip: seq<byte> -> seq<ZipItem>): (r: Stream)
    ensures r != Closed
    ensures r == Missing <==> (BlobFile(blobDir, e.hash) !in blobs ||
      (e.compress == 1 && gunzip(blobs[BlobFile(blobDir, e.hash)]).None?))
    ensures e.compress != 2 ==> r == ReadAsWritten(e, blobDir, blobs, gunzip)
  {
    var blob := BlobFile(blobDir, e.hash);
    if blob !in blobs then Missing
    else if e.compress == 2 then Bytes(MemberContent(unzip(blobs[blob]), PathString(e.path)))
    else ReadAsWritten(e, blobDir, blobs, gunzip)
  }

  /** As written, no packed entry with a blob can be read; as intended it reads as its member. */
  lemma PackedReadDiscrepancy(e: Entry, blobDir: Path, blobs: Blobs, gunzip: seq<byte> -> Option<seq<byte>>,
                              unzip: seq<byte> -> seq<ZipItem>)
    requires e.compress == 2 && BlobFile(blobDir, e.hash) in blobs
    ensures ReadAsWritten(e, blobDir, blobs, gunzip) == Closed
    ensures Read(e, blobDir, blobs, gunzip, unzip) ==
      Bytes(MemberContent(unzip(blobs[BlobFile(blobDir, e.hash)]), PathString(e.path)))
  {
  }

  /** A stored file reads back as its own content, whichever way `BackupStep` stored it. */
  lemma StoredFileReadsBack(
    rows: seq<Entry>, blobDir: Path, blobs: Blobs, digest: seq<byte> -> Digest,
    gzip: seq<byte> -> seq<byte>, gunzip: seq<byte> -> Option<seq<byte>>, unzip: seq<byte> -> seq<ZipItem>,
    p: Path, n: Node, newId: int)
    requires forall x :: gunzip(gzip(x)) == Some(x)
    requires n.File?
    requires BackupStep(rows, blobDir, blobs, digest, gzip, p, n, newId).Insert?
    ensures var s := BackupStep(rows, blobDir, blobs, digest, gzip, p, n, newId);
      Read(s.entry, blobDir, blobs[BlobFile(blobDir, s.entry.hash) := s.blob.value], gunzip, unzip) == Bytes(n.content)
  {
  }

  // ---------------------------------------------------------------------------
  // Packing (`packBackup`, `packFiles`) and importing (`importZipArchive`)

  /** The packing threshold: files of at least 50 MiB stay on their own. */
  const PackSizeLimit: int := 1024 * 1024 * 50

  /** `packBackup`'s filter: files under the limit that no other backup links. */
  function PackCandidates(es: seq<Entry>, links: set<Link>, backupId: int): (r: seq<Entry>)
    ensures forall e :: e in r <==> e in es && !e.isDirectory && e.size < PackSizeLimit && Unshared(e, links, backupId)
    ensures |r| <= |es|
    decreases |es|
  {
    if es == [] then []
    else
      (if !es[0].isDirectory && es[0].size < PackSizeLimit && Unshared(es[0], links, backupId) then [es[0]] else []) +
      PackCandidates(es[1..], links, backupId)
  }

  /** The zip member `packFiles` writes for an entry whose blob reads as `data`. */
  function PackItem(e: Entry, data: seq<byte>): (z: ZipItem)
    ensures z.name == PathString(e.path) && z.content == data
    ensures z.comment == Some(Comment(e.hash, e.id))
  {
    ZipItem(PathString(e.path), data, e.lastModified, Some(Comment(e.hash, e.id)))
  }

  /**
   * The members `packFiles` writes, one per entry in order, or the error that stops it:
   * an entry already packed, one whose blob is missing, or an unknown compression.
   */
  function PackItems(es: seq<Entry>, blobDir: Path, blobs: Blobs, gunzip: seq<byte> -> Option<seq<byte>>,
                     unzip: seq<byte> -> seq<ZipItem>): (r: Result<seq<ZipItem>, Error>)
    ensures r.Success? ==> |r.value| == |es|
    decreases |es|
  {
    if es == [] then Success([])
    else if es[0].compress == 2 then Failure(AlreadyPacked)
    else
      var st := Read(es[0], blobDir, blobs, gunzip, unzip);
      if st.Missing? then Failure(BlobNotFound(es[0].path))
      else if st.Bytes? then
        var rest := PackItems(es[1..], blobDir, blobs, gunzip, unzip);
        if rest.Failure? then rest else Success([PackItem(es[0], st.data)] + rest.value)
      else Failure(UnknownCompress(es[0].compress))
  }

  /** Packing gets through exactly when no entry is packed already and every blob reads. */
  lemma {:induction false} PackItemsSucceeds(es: seq<Entry>, blobDir: Path, blobs: Blobs,
                                             gunzip: seq<byte> -> Option<seq<byte>>, unzip: seq<byte> -> seq<ZipItem>)
    ensures PackItems(es, blobDir, blobs, gunzip, unzip).Success? <==>
      forall i :: 0 <= i < |es| ==> es[i].compress != 2 && Read(es[i], blobDir, blobs, gunzip, unzip).Bytes?
    decreases |es|
  {
    if es != [] {
      PackItemsStep(es, blobDir, blobs, gunzip, unzip);
      PackItemsSucceeds(es[1..], blobDir, blobs, gunzip, unzip);
      assert forall i :: 1 <= i < |es| ==> es[i] == es[1..][i - 1];
    }
  }

  /** Packing a non-empty list gets through exactly when its first entry reads and the rest packs. */
  lemma PackItemsStep(es: seq<Entry>, blobDir: Path, blobs: Blobs,
                      gunzip: seq<byte> -> Option<seq<byte>>, unzip: seq<byte> -> seq<ZipItem>)
    requires es != []
    ensures PackItems(es, blobDir, blobs, gunzip, unzip).Success? <==>
      es[0].compress != 2 && Read(es[0], blobDir, blobs, gunzip, unzip).Bytes? &&
      PackItems(es[1..], blobDir, blobs, gunzip, unzip).Success?
  {
  }

  /** Member `i` of the archive holds what entry `i`'s blob reads as, under the entry's path and comment. */
  lemma PackItemsAt(es: seq<Entry>, blobDir: Path, blobs: Blobs,
                    gunzip: seq<byte> -> Option<seq<byte>>, unzip: seq<byte> -> seq<ZipItem>, i: nat)
    requires PackItems(es, blobDir, blobs, gunzip, unzip).Success?
    requires i < |es|
    ensures var items := PackItems(es, blobDir, blobs, gunzip, unzip).value;
      Read(es[i], blobDir, blobs, gunzip, unzip) == Bytes(items[i].content) &&
      items[i] == PackItem(es[i], items[i].content)
  {
    PackItemsAll(es, blobDir, blobs, gunzip, unzip);
  }

  /** Every member of a successful pack holds what its entry's blob reads as. */
  lemma {:induction false} PackItemsAll(es: seq<Entry>, blobDir: Path, blobs: Blobs,
                                        gunzip: seq<byte> -> Option<seq<byte>>, unzip: seq<byte> -> seq<ZipItem>)
    requires PackItems(es, blobDir, blobs, gunzip, unzip).Success?
    ensures var items := PackItems(es, blobDir, blobs, gunzip, unzip).value;
      forall i :: 0 <= i < |es| ==> (Read(es[i], blobDir, blobs, gunzip, unzip) == Bytes(items[i].content) &&
        items[i] == PackItem(es[i], items[i].content))
    decreases |es|
  {
    if es != [] {
      var items := PackItems(es, blobDir, blobs, gunzip, unzip).value;
      PackItemsHead(es, blobDir, blobs, gunzip, unzip);
      PackItemsCons(es, blobDir, blobs, gunzip, unzip);
      PackItemsAll(es[1..], blobDir, blobs, gunzip, unzip);
      forall i | 0 < i < |es|
        ensures Read(es[i], blobDir, blobs, gunzip, unzip) == Bytes(items[i].content)
        ensures items[i] == PackItem(es[i], items[i].content)
      {
        PackItemsShift(es, blobDir, blobs, gunzip, unzip, i);
      }
    }
  }

  /** A successful pack starts with the member of the first entry, read in full. */
  lemma PackItemsHead(es: seq<Entry>, blobDir: Path, blobs: Blobs,
                      gunzip: seq<byte> -> Option<seq<byte>>, unzip: seq<byte> -> seq<ZipItem>)
    requires PackItems(es, blobDir, blobs, gunzip, unzip).Success? && es != []
    ensures var items := PackItems(es, blobDir, blobs, gunzip, unzip).value;
      Read(es[0], blobDir, blobs, gunzip, unzip) == Bytes(items[0].content) &&
      items[0] == PackItem(es[0], items[0].content)
  {
    PackItemsCons(es, blobDir, blobs, gunzip, unzip);
    var items := PackItems(es, blobDir, blobs, gunzip, unzip).value;
    var st := Read(es[0], blobDir, blobs, gunzip, unzip);
    assert items[0] == PackItem(es[0], st.data);
    assert st == Bytes(st.data);
  }

  /** Past the first entry, a successful pack is the pack of the rest, shifted by one. */
  lemma PackItemsShift(es: seq<Entry>, blobDir: Path, blobs: Blobs,
                       gunzip: seq<byte> -> Option<seq<byte>>, unzip: seq<byte> -> seq<ZipItem>, i: nat)
    requires PackItems(es, blobDir, blobs, gunzip, unzip).Success?
    requires 0 < i < |es|
    ensures PackItems(es[1..], blobDir, blobs, gunzip, unzip).Success?
    ensures PackItems(es, blobDir, blobs, gunzip, unzip).value[i] == PackItems(es[1..], blobDir, blobs, gunzip, unzip).value[i - 1]
    ensures es[i] == es[1..][i - 1]
  {
    PackItemsCons(es, blobDir, blobs, gunzip, unzip);
    var items := PackItems(es, blobDir, blobs, gunzip, unzip).value;
    var rest := PackItems(es[1..], blobDir, blobs, gunzip, unzip).value;
    var head := PackItem(es[0], Read(es[0], blobDir, blobs, gunzip, unzip).data);
    assert items == [head] + rest;
    ConsAt(head, rest, i);
  }

  /** Past its head, a sequence built by prepending is the tail shifted by one. */
  lemma ConsAt<T>(head: T, tail: seq<T>, i: nat)
    requires 0 < i <= |tail|
    ensures ([head] + tail)[i] == tail[i - 1]
  {
  }

  /** A successful pack starts with the first entry's member, then packs the rest. */
  lemma PackItemsCons(es: seq<Entry>, blobDir: Path, blobs: Blobs,
                      gunzip: seq<byte> -> Option<seq<byte>>, unzip: seq<byte> -> seq<ZipItem>)
    requires es != [] && PackItems(es, blobDir, blobs, gunzip, unzip).Success?
    ensures Read(es[0], blobDir, blobs, gunzip, unzip).Bytes?
    ensures PackItems(es[1..], blobDir, blobs, gunzip, unzip).Success?
    ensures PackItems(es, blobDir, blobs, gunzip, unzip).value ==
      [PackItem(es[0], Read(es[0], blobDir, blobs, gunzip, unzip).data)] + PackItems(es[1..], blobDir, blobs, gunzip, unzip).value
  {
  }

  /** A packed row: the members share the archive's blob, its hash and its size. */
  function Packed(e: Entry, hash: string, blobSize: int): (p: Entry)
    ensures p.compress == 2 && p.hash == hash && p.zippedSize == blobSize
    ensures p.id == e.id && p.path == e.path && p.size == e.size && p.lastModified == e.lastModified
  {
    e.(compress := 2, hash := hash, zippedSize := blobSize)
  }

  /**
   * Packing keeps every packed file readable: once its row is rewritten to point at
   * the archive, it reads as it did before (given a zip codec that reads back what
   * it writes, distinct member names, and no other archive already stored under the
   * same hash).
   */
  lemma PackThenRead(
    es: seq<Entry>, blobDir: Path, blobs: Blobs, gunzip: seq<byte> -> Option<seq<byte>>,
    zip: seq<ZipItem> -> seq<byte>, unzip: seq<byte> -> seq<ZipItem>, hash: string, i: nat)
    requires forall items :: unzip(zip(items)) == items
    requires PackItems(es, blobDir, blobs, gunzip, unzip).Success?
    requires forall j, k :: 0 <= j < k < |es| ==> PathString(es[j].path) != PathString(es[k].path)
    requires i < |es|
    ensures var data := zip(PackItems(es, blobDir, blobs, gunzip, unzip).value);
      var blobs' := if BlobFile(blobDir, hash) in blobs then blobs else blobs[BlobFile(blobDir, hash) := data];
      blobs'[BlobFile(blobDir, hash)] == data ==>
      Read(Packed(es[i], hash, |data|), blobDir, blobs', gunzip, unzip) == Read(es[i], blobDir, blobs, gunzip, unzip)
  {
    var items := PackItems(es, blobDir, blobs, gunzip, unzip).value;
    var data := zip(items);
    var blobs' := if BlobFile(blobDir, hash) in blobs then blobs else blobs[BlobFile(blobDir, hash) := data];
    if blobs'[BlobFile(blobDir, hash)] == data {
      PackItemsAt(es, blobDir, blobs, gunzip, unzip, i);
      forall j | 0 <= j < i ensures items[j].name != PathString(es[i].path) {
        PackItemsAt(es, blobDir, blobs, gunzip, unzip, j);
      }
      MemberContentAt(items, i, PathString(es[i].path));
      assert Read(es[i], blobDir, blobs, gunzip, unzip).Bytes?;
      assert BlobFile(blobDir, es[i].hash) in blobs;
      assert Read(es[i], blobDir, blobs', gunzip, unzip) == Read(es[i], blobDir, blobs, gunzip, unzip);
    }
  }

  /**
   * The blobs after `importZipArchive` reads `items`, and whether it got through:
   * members without a comment are skipped, a comment that is not the expected JSON
   * stops the import, and a blob is written only where none exists yet.
   */
  function ImportBlobs(blobDir: Path, blobs: Blobs, items: seq<ZipItem>): (r: (Blobs, bool))
    ensures blobs.Keys <= r.0.Keys
    ensures forall q :: q in blobs ==> r.0[q] == blobs[q]
    decreases |items|
  {
    if items == [] then (blobs, true)
    else
      var z := items[0];
      match z.comment
        case None => ImportBlobs(blobDir, blobs, items[1..])
        case Some(Unparsable) => (blobs, false)
        case Some(Comment(h, _)) =>
          var f := BlobFile(blobDir, h);
          ImportBlobs(blobDir, if f in blobs then blobs else blobs[f := z.content], items[1..])
  }

  /**
   * A completed import leaves a blob for the hash of every commented member; where
   * no blob of that hash existed, the blob holds the bytes of the first commented
   * member with that hash.
   */
  lemma {:induction false} ImportStoresEveryMember(blobDir: Path, blobs: Blobs, items: seq<ZipItem>, i: nat)
    requires ImportBlobs(blobDir, blobs, items).1
    requires i < |items| && items[i].comment.Some?
    ensures items[i].comment.value.Comment? &&
      BlobFile(blobDir, items[i].comment.value.hash) in ImportBlobs(blobDir, blobs, items).0
    ensures items[i].comment.value.Comment? ==>
      var h := items[i].comment.value.hash;
      var earlier := forall j :: 0 <= j < i && items[j].comment.Some? && items[j].comment.value.Comment? ==>
        items[j].comment.value.hash != h;
      BlobFile(blobDir, h) !in blobs && earlier ==> ImportBlobs(blobDir, blobs, items).0[BlobFile(blobDir, h)] == items[i].content
    decreases |items|
  {
    var z := items[0];
    if i == 0 {
      match z.comment.value
        case Comment(h, _) =>
          var f := BlobFile(blobDir, h);
          var b' := if f in blobs then blobs else blobs[f := z.content];
          assert f in b';
    } else {
      match z.comment
        case None =>
          ImportStoresEveryMember(blobDir, blobs, items[1..], i - 1);
        case Some(Comment(h, _)) =>
          var f := BlobFile(blobDir, h);
          ImportStoresEveryMember(blobDir, if f in blobs then blobs else blobs[f := z.content], items[1..], i - 1);
          if items[i].comment.value.Comment? && h != items[i].comment.value.hash {
            if f == BlobFile(blobDir, items[i].comment.value.hash) {
              BlobFileInjective(blobDir, h, items[i].comment.value.hash);
            }
          }
    }
  }

  // ---------------------------------------------------------------------------
  // Restoring (`restore`)

  /** `associateBy { it.path }`: each path maps to the last entry with that path. */
  function ByPath(es: seq<Entry>): (m: map<Path, Entry>)
    ensures forall e :: e in es ==> e.path in m
    ensures forall p :: p in m ==> m[p] in es && m[p].path == p
    decreases |es|
  {
    if es == [] then map[] else ByPath(es[..|es| - 1])[es[|es| - 1].path := es[|es| - 1]]
  }

  /** The entries `restore` writes back: those whose path the caller does not ignore. */
  function RestoreMap(es: seq<Entry>, ignored: Path -> bool): (m: map<Path, Entry>)
    ensures forall p :: p in m <==> !ignored(p) && exists e :: e in es && e.path == p
    ensures forall p :: p in m ==> m[p] in es && m[p].path == p
  {
    var all := ByPath(es);
    map p | p in all && !ignored(p) :: all[p]
  }

  /**
   * The first pass of `restore` on one walked path (never the root): keep it when its
   * name is in `ignoredFiles` or the caller ignores it; delete a file the backup does
   * not have; delete, recursively, a path whose kind differs from its entry's.
   */
  function RestoreDecision(target: Tree, m: map<Path, Entry>, ignoredFiles: set<string>,
                           ignored: Path -> bool, p: Path): (d: Deletion)
    ensures d == DeleteFile <==> (p != [] && p in target && p[|p| - 1] !in ignoredFiles && !ignored(p) &&
      p !in m && target[p].File?)
    ensures d == DeleteTree <==> (p != [] && p in target && p[|p| - 1] !in ignoredFiles && !ignored(p) &&
      p in m && m[p].isDirectory != target[p].Dir?)
  {
    if p == [] || p !in target then Keep
    else if p[|p| - 1] in ignoredFiles || ignored(p) then Keep
    else if p !in m && target[p].File? then DeleteFile
    else if p in m && m[p].isDirectory != target[p].Dir? then DeleteTree
    else Keep
  }

  /** `RestoreDecision` as the function the first pass applies to every walked path. */
  function Decide(target: Tree, m: map<Path, Entry>, ignoredFiles: set<string>, ignored: Path -> bool): Path -> Deletion
  {
    p => RestoreDecision(target, m, ignoredFiles, ignored, p)
  }

  /**
   * What the first pass leaves: every walked path survives unless it is a stray file
   * or lies at or below a path of the wrong kind; in particular a path the backup
   * has with the right kind, all of whose ancestors are kept, survives.
   */
  lemma PrunedSurvivors(target: Tree, m: map<Path, Entry>, ignoredFiles: set<string>, ignored: Path -> bool, q: Path)
    requires q in target
    requires forall k :: 1 <= k <= |q| ==> RestoreDecision(target, m, ignoredFiles, ignored, q[..k]) == Keep
    ensures q in Pruned(target, target.Keys - {[]}, Decide(target, m, ignoredFiles, ignored))
  {
    var decide := Decide(target, m, ignoredFiles, ignored);
    assert q[..|q|] == q;
    forall k | 0 <= k <= |q| ensures decide(q[..k]) == Keep {
      if k == 0 {
        assert q[..k] == [];
      }
    }
  }

  /** A stray file the first pass reaches and does not skip is gone. */
  lemma PrunedRemovesStrayFile(target: Tree, m: map<Path, Entry>, ignoredFiles: set<string>, ignored: Path -> bool, q: Path)
    requires q != [] && q in target && target[q].File? && q !in m
    requires q[|q| - 1] !in ignoredFiles && !ignored(q)
    ensures q !in Pruned(target, target.Keys - {[]}, Decide(target, m, ignoredFiles, ignored))
  {
  }

  /** A path whose kind differs from its entry, and everything below it, is gone. */
  lemma PrunedRemovesWrongKind(target: Tree, m: map<Path, Entry>, ignoredFiles: set<string>, ignored: Path -> bool,
                               p: Path, q: Path)
    requires p != [] && p in target && p in m && m[p].isDirectory != target[p].Dir?
    requires p[|p| - 1] !in ignoredFiles && !ignored(p)
    requires q in target && IsPrefix(p, q)
    ensures q !in Pruned(target, target.Keys - {[]}, Decide(target, m, ignoredFiles, ignored))
  {
    assert q[..|p|] == p;
  }

  /** Handling walked path `p` as the first pass does: delete it, delete it and all below it, or leave it. */
  function PruneOne(cur: Tree, p: Path, d: Deletion): (r: Tree)
    ensures d == Keep ==> r == cur
    ensures forall q :: q in r <==> q in cur && !(d == DeleteFile && q == p) && !(d == DeleteTree && IsPrefix(p, q))
    ensures forall q :: q in r ==> r[q] == cur[q]
  {
    if d == DeleteFile then cur - {p}
    else if d == DeleteTree then map q | q in cur && !IsPrefix(p, q) :: cur[q]
    else cur
  }

  /** One more walked path: present ones are handled, absent ones (under a deleted tree) change nothing. */
  lemma PruneAdvance(t: Tree, cur: Tree, visited: set<Path>, decide: Path -> Deletion, p: Path)
    requires cur == Pruned(t, visited, decide)
    requires p in t && p !in visited
    ensures Pruned(t, visited + {p}, decide) == if p in cur then PruneOne(cur, p, decide(p)) else cur
  {
    if p in cur {
      PruneStep(t, cur, visited, decide, p);
    } else {
      PruneGone(t, visited, decide, p);
    }
  }

  /** Walks the paths `walk` of `t`, in any order, applying `decide` to the ones still present. */
  method PruneWalk(t: Tree, walk: set<Path>, decide: Path -> Deletion) returns (cur: Tree)
    requires walk <= t.Keys
    ensures cur == Pruned(t, walk, decide)
  {
    ghost var visited: set<Path> := {};
    var todo := walk;
    cur := t;
    PrunedNothing(t, decide);
    while todo != {}
      invariant todo !! visited && todo + visited == walk
      invariant cur == Pruned(t, visited, decide)
      decreases |todo|
    {
      var p :| p in todo;
      PruneAdvance(t, cur, visited, decide, p);
      if p in cur {
        cur := PruneOne(cur, p, decide(p));
      }
      todo := todo - {p};
      visited := visited + {p};
    }
  }

  /**
   * The first pass of `restore`: walk every path below the root and delete stray
   * files and wrong-kind paths as `RestoreDecision` says.
   */
  method FirstPass(target: Tree, m: map<Path, Entry>, ignoredFiles: set<string>, ignored: Path -> bool)
    returns (cur: Tree)
    ensures cur == Pruned(target, target.Keys - {[]}, Decide(target, m, ignoredFiles, ignored))
  {
    cur := PruneWalk(target, target.Keys - {[]}, Decide(target, m, ignoredFiles, ignored));
  }

  /** What one restore task does to its path. */
  datatype Task = Unchanged | Write(node: Node) | Fail

  /** A node already at the entry's time and size: the restore task leaves it alone. */
  predicate Current(n: Node, e: Entry)
  {
    n.lastModified == e.lastModified && Length(n) == e.size
  }

  /**
   * What `restore` promises of a path it writes for entry `e`: a directory gets the
   * entry's time; a file whose blob gives no stream is left empty (its time `now`);
   * any other file has the entry's size and time and holds the bytes read from the
   * blob when their MD5 is the entry's hash, and otherwise the gzip-decoded blob.
   */
  predicate Written(e: Entry, n: Node, blobDir: Path, blobs: Blobs, digest: seq<byte> -> Digest,
                    gunzip: seq<byte> -> Option<seq<byte>>, unzip: seq<byte> -> seq<ZipItem>, now: int)
  {
    if e.isDirectory then n.lastModified == e.lastModified
    else match Read(e, blobDir, blobs, gunzip, unzip)
      case Missing => n == File([], now)
      case Bytes(data) =>
        n.File? && |n.content| == e.size && n.lastModified == e.lastModified &&
        (HashText(digest, data) == e.hash ==> n.content == data) &&
        (HashText(digest, data) != e.hash ==> gunzip(blobs[BlobFile(blobDir, e.hash)]) == Some(n.content))
      case _ => false
  }

  /**
   * One restore task (`retry(5) { … }` and its guard) for entry `e` at a path that
   * holds `cur`: nothing when time and size already agree (a missing path whose entry
   * has time 0 fails on `fileSize`), a directory gets its time, a file is rewritten
   * from its blob (from the decoded blob when the copy's hash disagrees, failing when
   * the blob is not gzip data) and must end with the entry's size. `now` is the time
   * of a file left empty because its blob gives no stream.
   */
  function RestoreTask(e: Entry, cur: Option<Node>, blobDir: Path, blobs: Blobs,
                       digest: seq<byte> -> Digest, gunzip: seq<byte> -> Option<seq<byte>>,
                       unzip: seq<byte> -> seq<ZipItem>, newDirLength: int, now: int): (t: Task)
    ensures t.Write? ==> Written(e, t.node, blobDir, blobs, digest, gunzip, unzip, now)
    ensures t == Unchanged <==> cur.Some? && Current(cur.value, e)
    ensures cur.None? && e.lastModified == 0 ==> t == Fail
    ensures !e.isDirectory && cur.Some? && cur.value.Dir? && !Current(cur.value, e) ==> t == Fail
    ensures t.Write? && t.node.Dir? ==> e.isDirectory
  {
    var lm := if cur.Some? then cur.value.lastModified else 0;
    if e.lastModified == lm && cur.None? then Fail
    else if e.lastModified == lm && e.size == Length(cur.value) then Unchanged
    else if e.isDirectory then
      if cur.Some? && cur.value.File? then Write(File(cur.value.content, e.lastModified))
      else Write(Dir(if cur.Some? then cur.value.length else newDirLength, e.lastModified))
    else if cur.Some? && cur.value.Dir? then Fail
    else match Read(e, blobDir, blobs, gunzip, unzip)
      case Missing => Write(File([], now))
      case Bytes(data) =>
        var content := if HashText(digest, data) != e.hash then gunzip(blobs[BlobFile(blobDir, e.hash)]) else Some(data);
        if content.None? || |content.value| != e.size then Fail else Write(File(content.value, e.lastModified))
      case _ => Fail
  }

  /**
   * A file entry whose blob reads back bytes of its hash and size is restored with
   * exactly those bytes and its time, over a missing path or a file that does not
   * already agree with it.
   */
  lemma ReadBackRestores(e: Entry, c: seq<byte>, cur: Option<Node>, blobDir: Path, blobs: Blobs,
                         digest: seq<byte> -> Digest, gunzip: seq<byte> -> Option<seq<byte>>,
                         unzip: seq<byte> -> seq<ZipItem>, newDirLength: int, now: int)
    requires !e.isDirectory
    requires Read(e, blobDir, blobs, gunzip, unzip) == Bytes(c) && HashText(digest, c) == e.hash && |c| == e.size
    requires cur.None? || (cur.value.File? && !Current(cur.value, e))
    requires cur.None? ==> e.lastModified != 0
    ensures RestoreTask(e, cur, blobDir, blobs, digest, gunzip, unzip, newDirLength, now) == Write(File(c, e.lastModified))
  {
  }

  /**
   * A packed entry is restored from the bytes of its member, whose MD5 is not the
   * archive's hash that the row now carries; the task then decodes the archive as
   * gzip, and when that is not gzip data the task fails.
   */
  lemma PackedRestoreFails(e: Entry, cur: Option<Node>, blobDir: Path, blobs: Blobs,
                           digest: seq<byte> -> Digest, gunzip: seq<byte> -> Option<seq<byte>>,
                           unzip: seq<byte> -> seq<ZipItem>, newDirLength: int, now: int)
    requires !e.isDirectory && e.compress == 2 && BlobFile(blobDir, e.hash) in blobs
    requires var archive := blobs[BlobFile(blobDir, e.hash)];
      HashText(digest, MemberContent(unzip(archive), PathString(e.path))) != e.hash && gunzip(archive).None?
    requires cur.None? || (cur.value.File? && !Current(cur.value, e))
    ensures RestoreTask(e, cur, blobDir, blobs, digest, gunzip, unzip, newDirLength, now) == Fail
  {
  }

  /**
   * Backup then restore gives the file back: a file stored by `BackupStep` and
   * restored over a path that differs from it comes back with its content and time.
   */
  lemma BackupRestoreRoundTrip(
    rows: seq<Entry>, blobDir: Path, blobs: Blobs, digest: seq<byte> -> Digest,
    gzip: seq<byte> -> seq<byte>, gunzip: seq<byte> -> Option<seq<byte>>, unzip: seq<byte> -> seq<ZipItem>,
    p: Path, n: Node, newId: int, cur: Option<Node>, newDirLength: int, now: int)
    requires forall x :: gunzip(gzip(x)) == Some(x)
    requires n.File?
    requires BackupStep(rows, blobDir, blobs, digest, gzip, p, n, newId).Insert?
    requires cur.None? || cur.value.File?
    requires cur.Some? ==> cur.value.lastModified != n.lastModified || |cur.value.content| != |n.content|
    requires cur.None? ==> n.lastModified != 0
    ensures var s := BackupStep(rows, blobDir, blobs, digest, gzip, p, n, newId);
      var blobs' := blobs[BlobFile(blobDir, s.entry.hash) := s.blob.value];
      RestoreTask(s.entry, cur, blobDir, blobs', digest, gunzip, unzip, newDirLength, now) == Write(n)
  {
    var s := BackupStep(rows, blobDir, blobs, digest, gzip, p, n, newId);
    var blobs' := blobs[BlobFile(blobDir, s.entry.hash) := s.blob.value];
    StoredFileReadsBack(rows, blobDir, blobs, digest, gzip, gunzip, unzip, p, n, newId);
    ReadBackRestores(s.entry, n.content, cur, blobDir, blobs', digest, gunzip, unzip, newDirLength, now);
  }

  /** The ancestors of `k` that `createParentDirectories` needs: `k[..i]` for `i < |k|`. */
  function Ancestors(k: Path): (r: set<Path>)
    ensures forall q :: q in r <==> |q| < |k| && k[..|q|] == q
  {
    var r := set i | 0 <= i < |k| :: k[..i];
    assert forall q :: |q| < |k| && k[..|q|] == q ==> q in r by {
      forall q | |q| < |k| && k[..|q|] == q ensures q in r {
        var i := |q|;
        assert k[..i] == q;
      }
    }
    r
  }

  /**
   * One path of the second pass: create the missing ancestors (failing when one is a
   * file), then run the restore task. Returns whether it succeeded and the new tree.
   */
  function ApplyRestore(cur: Tree, k: Path, e: Entry, blobDir: Path, blobs: Blobs,
                        digest: seq<byte> -> Digest, gunzip: seq<byte> -> Option<seq<byte>>,
                        unzip: seq<byte> -> seq<ZipItem>, newDirLength: int, now: int): (r: (bool, Tree))
    ensures forall q :: q in cur && q != k ==> q in r.1 && r.1[q] == cur[q]
    ensures r.0 ==> k in r.1
    ensures r.0 ==> Written(e, r.1[k], blobDir, blobs, digest, gunzip, unzip, now) ||
                    (k in cur && r.1[k] == cur[k] && Current(cur[k], e))
    ensures k in cur && Current(cur[k], e) ==> k in r.1 && r.1[k] == cur[k]
    ensures forall q :: q in r.1 ==> q in cur || q == k || q in Ancestors(k)
  {
    var anc := Ancestors(k);
    if exists q :: q in anc && q in cur && cur[q].File? then (false, cur)
    else
      var c1 := map q | q in cur.Keys + anc :: if q in cur then cur[q] else Dir(newDirLength, now);
      assert k in cur ==> c1[k] == cur[k] by {
        assert k !in anc;
      }
      match RestoreTask(e, if k in c1 then Some(c1[k]) else None, blobDir, blobs, digest, gunzip, unzip, newDirLength, now)
        case Unchanged => (true, c1)
        case Write(n) => (true, c1[k := n])
        case Fail => (false, c1)
  }
}
