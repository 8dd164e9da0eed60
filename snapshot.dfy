/**
 * Snapshot resolution: how `Ledger::fetch` finds the ledger dump for a
 * snapshot hash. A local cache of files is consulted first; on a miss the
 * storage bucket is listed, the first key containing the hash is chosen,
 * and the object is written to the cache either verbatim (`.json`) or by
 * extracting one entry of an archive (`.tar.gz`, `.txt`).
 *
 * Storage calls, file-system calls and archive decoding are I/O or foreign
 * code: the bucket is a sequence of stored objects in listing order, the
 * file system is a map from file name to bytes, and decoding an archive is
 * the parameter `unpack`.
 */
module Snapshot {
  import opened Wrappers

  newtype byte = x: int | 0 <= x < 256
  type Bytes = seq<byte>

  /** An object of the storage bucket: its key and its content. */
  datatype StoredObject = StoredObject(key: string, content: Bytes)
  /** The bucket, in the order `list_objects` returns its keys. */
  type Bucket = seq<StoredObject>

  /** An entry of a decoded archive: its path and its bytes. */
  datatype ArchiveEntry = ArchiveEntry(path: string, content: Bytes)

  datatype SnapshotError =
    | SnapshotNotFound(hash: string)   // no listed key contains the hash
    | EntryNotFound(key: string)       // the archive holds no ledger entry
    | UnsupportedFormat(key: string)   // the key has none of the known suffixes

  // ---------------------------------------------------------------------
  // Strings
  // ---------------------------------------------------------------------

  /** `s.contains(sub)`: `sub` occurs somewhere in `s`. */
  predicate Contains(s: string, sub: string)
    decreases |s|
  {
    sub <= s || (s != [] && Contains(s[1..], sub))
  }

  /** `s.ends_with(suffix)`. */
  predicate EndsWith(s: string, suffix: string) {
    |suffix| <= |s| && s[|s| - |suffix|..] == suffix
  }

  /** `sub` occurs in `s` starting at index `i`. */
  predicate OccursAt(s: string, sub: string, i: int) {
    0 <= i && i + |sub| <= |s| && s[i..i + |sub|] == sub
  }

  /** `Contains` finds exactly the substrings of `s`. */
  lemma {:induction false} ContainsIff(s: string, sub: string)
    ensures Contains(s, sub) <==> exists i :: OccursAt(s, sub, i)
    decreases |s|
  {
    if sub <= s {
      assert OccursAt(s, sub, 0);
    } else if s == [] {
    } else {
      ContainsIff(s[1..], sub);
      if Contains(s[1..], sub) {
        var i :| OccursAt(s[1..], sub, i);
        assert s[1..][i..i + |sub|] == s[i + 1..i + 1 + |sub|];
        assert OccursAt(s, sub, i + 1);
      } else {
        forall i ensures !OccursAt(s, sub, i) {
          if 0 < i && i + |sub| <= |s| {
            assert s[i..i + |sub|] == s[1..][i - 1..i - 1 + |sub|];
            assert !OccursAt(s[1..], sub, i - 1);
          }
        }
      }
    }
  }

  /** No key ends in two of the recognised suffixes. */
  lemma SuffixesExclusive(key: string)
    ensures !(EndsWith(key, ".json") && EndsWith(key, ".tar.gz"))
    ensures !(EndsWith(key, ".json") && EndsWith(key, ".txt"))
    ensures !(EndsWith(key, ".tar.gz") && EndsWith(key, ".txt"))
  {
    if EndsWith(key, ".json") {
      assert key[|key| - 1] == ".json"[4] == 'n';
    }
    if EndsWith(key, ".tar.gz") {
      assert key[|key| - 1] == ".tar.gz"[6] == 'z';
    }
  }

  // ---------------------------------------------------------------------
  // Selection
  // ---------------------------------------------------------------------

  /** The cache file name of a snapshot: `<hash>.json`. */
  function CachePath(hash: string): (p: string)
    ensures EndsWith(p, ".json") && hash <= p
  {
    hash + ".json"
  }

  /** The keys `list_objects` returns, in order. */
  function ListObjects(bucket: Bucket): (keys: seq<string>) {
    seq(|bucket|, i requires 0 <= i < |bucket| => bucket[i].key)
  }

  /** Index of the first key containing `hash`: `matching_objects[0]`. */
  function FirstContaining(keys: seq<string>, hash: string): (r: Option<nat>)
    ensures r.Some? ==> r.value < |keys| && Contains(keys[r.value], hash)
    ensures r.Some? ==> forall j | 0 <= j < r.value :: !Contains(keys[j], hash)
    ensures r.None? <==> forall j | 0 <= j < |keys| :: !Contains(keys[j], hash)
  {
    if keys == [] then None
    else if Contains(keys[0], hash) then Some(0)
    else match FirstContaining(keys[1..], hash)
      case None => None
      case Some(i) => Some(i + 1)
  }

  /** An archive entry that holds the ledger of the object named `key`. */
  predicate IsLedgerEntry(key: string, path: string) {
    Contains(key, path) || EndsWith(path, ".json")
  }

  /** Index of the first ledger entry of an archive: where the scan stops. */
  function FirstLedgerEntry(key: string, entries: seq<ArchiveEntry>): (r: Option<nat>)
    ensures r.Some? ==> r.value < |entries| && IsLedgerEntry(key, entries[r.value].path)
    ensures r.Some? ==> forall j | 0 <= j < r.value :: !IsLedgerEntry(key, entries[j].path)
    ensures r.None? <==> forall j | 0 <= j < |entries| :: !IsLedgerEntry(key, entries[j].path)
  {
    if entries == [] then None
    else if IsLedgerEntry(key, entries[0].path) then Some(0)
    else match FirstLedgerEntry(key, entries[1..])
      case None => None
      case Some(i) => Some(i + 1)
  }

  /** What `download` writes for `hash`, or why it fails. */
  function Downloaded(hash: string, bucket: Bucket, unpack: Bytes -> seq<ArchiveEntry>)
    : (r: Result<Bytes, SnapshotError>)
    ensures r.Failure? && !r.error.SnapshotNotFound? ==> Contains(r.error.key, hash)
    ensures r.Failure? && r.error.SnapshotNotFound? ==> r.error.hash == hash
  {
    match FirstContaining(ListObjects(bucket), hash)
    case None => Failure(SnapshotNotFound(hash))
    case Some(i) =>
      var key := bucket[i].key;
      var bytes := bucket[i].content;
      if EndsWith(key, ".json") then Success(bytes)
      else if EndsWith(key, ".tar.gz") || EndsWith(key, ".txt") then
        var entries := unpack(bytes);
        match FirstLedgerEntry(key, entries)
        case None => Failure(EntryNotFound(key))
        case Some(k) => Success(entries[k].content)
      else Failure(UnsupportedFormat(key))
  }

  /**
   * What `fetch` reads, and the cache afterwards: a cached `<hash>.json` is
   * read as it is; otherwise the download is written there first, and a
   * failed download leaves the cache as it was.
   */
  function Resolve(files: map<string, Bytes>, hash: string, bucket: Bucket,
                   unpack: Bytes -> seq<ArchiveEntry>)
    : (r: (Result<Bytes, SnapshotError>, map<string, Bytes>))
    ensures r.0.Success? <==> CachePath(hash) in r.1
    ensures r.0.Success? ==> r.1[CachePath(hash)] == r.0.value
    ensures r.0.Failure? ==> Downloaded(hash, bucket, unpack) == Failure(r.0.error)
  {
    var dest := CachePath(hash);
    if dest in files then (Success(files[dest]), files)
    else match Downloaded(hash, bucket, unpack)
      case Failure(e) => (Failure(e), files)
      case Success(bytes) => (Success(bytes), files[dest := bytes])
  }

  // ---------------------------------------------------------------------
  // Properties of download
  // ---------------------------------------------------------------------

  /** The download fails for want of a snapshot exactly when no key contains the hash. */
  lemma DownloadNotFound(hash: string, bucket: Bucket, unpack: Bytes -> seq<ArchiveEntry>)
    ensures Downloaded(hash, bucket, unpack) == Failure(SnapshotNotFound(hash)) <==>
      forall j | 0 <= j < |bucket| :: !Contains(bucket[j].key, hash)
  {
    var keys := ListObjects(bucket);
    assert forall j | 0 <= j < |bucket| :: keys[j] == bucket[j].key;
  }

  /** The first key containing the hash is the object downloaded. */
  predicate FirstMatch(hash: string, bucket: Bucket, i: nat) {
    i < |bucket| && Contains(bucket[i].key, hash) &&
    forall j | 0 <= j < i :: !Contains(bucket[j].key, hash)
  }

  lemma FirstMatchChosen(hash: string, bucket: Bucket, i: nat)
    requires FirstMatch(hash, bucket, i)
    ensures FirstContaining(ListObjects(bucket), hash) == Some(i)
  {
    var keys := ListObjects(bucket);
    var r := FirstContaining(keys, hash);
    assert keys[i] == bucket[i].key;
    assert forall j | 0 <= j < i :: keys[j] == bucket[j].key;
  }

  /** A `.json` object is written byte for byte. */
  lemma DownloadJsonVerbatim(hash: string, bucket: Bucket, unpack: Bytes -> seq<ArchiveEntry>, i: nat)
    requires FirstMatch(hash, bucket, i)
    requires EndsWith(bucket[i].key, ".json")
    ensures Downloaded(hash, bucket, unpack) == Success(bucket[i].content)
  {
    FirstMatchChosen(hash, bucket, i);
  }

  /**
   * An archive object yields the bytes of its first ledger entry, and fails
   * with `EntryNotFound` exactly when it has none.
   */
  lemma DownloadArchive(hash: string, bucket: Bucket, unpack: Bytes -> seq<ArchiveEntry>, i: nat, k: nat)
    requires FirstMatch(hash, bucket, i)
    requires EndsWith(bucket[i].key, ".tar.gz") || EndsWith(bucket[i].key, ".txt")
    requires k < |unpack(bucket[i].content)|
    requires IsLedgerEntry(bucket[i].key, unpack(bucket[i].content)[k].path)
    requires forall j | 0 <= j < k :: !IsLedgerEntry(bucket[i].key, unpack(bucket[i].content)[j].path)
    ensures Downloaded(hash, bucket, unpack) == Success(unpack(bucket[i].content)[k].content)
  {
    FirstMatchChosen(hash, bucket, i);
    SuffixesExclusive(bucket[i].key);
    var r := FirstLedgerEntry(bucket[i].key, unpack(bucket[i].content));
    assert r == Some(k);
  }

  lemma DownloadArchiveEmpty(hash: string, bucket: Bucket, unpack: Bytes -> seq<ArchiveEntry>, i: nat)
    requires FirstMatch(hash, bucket, i)
    requires EndsWith(bucket[i].key, ".tar.gz") || EndsWith(bucket[i].key, ".txt")
    ensures Downloaded(hash, bucket, unpack) == Failure(EntryNotFound(bucket[i].key)) <==>
      forall j | 0 <= j < |unpack(bucket[i].content)| ::
        !IsLedgerEntry(bucket[i].key, unpack(bucket[i].content)[j].path)
  {
    FirstMatchChosen(hash, bucket, i);
    SuffixesExclusive(bucket[i].key);
  }

  /** Any other suffix is refused. */
  lemma DownloadUnsupported(hash: string, bucket: Bucket, unpack: Bytes -> seq<ArchiveEntry>, i: nat)
    requires FirstMatch(hash, bucket, i)
    ensures Downloaded(hash, bucket, unpack) == Failure(UnsupportedFormat(bucket[i].key)) <==>
      !EndsWith(bucket[i].key, ".json") && !EndsWith(bucket[i].key, ".tar.gz") &&
      !EndsWith(bucket[i].key, ".txt")
  {
    FirstMatchChosen(hash, bucket, i);
  }

  /** Objects listed after the first match never influence the download. */
  lemma DownloadIgnoresLaterObjects(hash: string, bucket: Bucket, more: Bucket,
                                    unpack: Bytes -> seq<ArchiveEntry>, i: nat)
    requires FirstMatch(hash, bucket, i)
    ensures Downloaded(hash, bucket + more, unpack) == Downloaded(hash, bucket, unpack)
  {
    FirstMatchChosen(hash, bucket, i);
    assert FirstMatch(hash, bucket + more, i) by {
      assert forall j | 0 <= j <= i :: (bucket + more)[j] == bucket[j];
    }
    FirstMatchChosen(hash, bucket + more, i);
  }

  /** Every successful download comes from an object whose key contains the hash. */
  lemma DownloadProvenance(hash: string, bucket: Bucket, unpack: Bytes -> seq<ArchiveEntry>)
    requires Downloaded(hash, bucket, unpack).Success?
    ensures exists i | 0 <= i < |bucket| ::
      && Contains(bucket[i].key, hash)
      && (|| Downloaded(hash, bucket, unpack).value == bucket[i].content
          || exists e | e in unpack(bucket[i].content) :: Downloaded(hash, bucket, unpack).value == e.content)
  {
    var i := FirstContaining(ListObjects(bucket), hash).value;
    assert ListObjects(bucket)[i] == bucket[i].key;
    var key := bucket[i].key;
    if !EndsWith(key, ".json") {
      var entries := unpack(bucket[i].content);
      var k := FirstLedgerEntry(key, entries).value;
      assert entries[k] in entries;
    }
  }

  // ---------------------------------------------------------------------
  // Properties of fetch
  // ---------------------------------------------------------------------

  /** A cached snapshot is read without consulting the bucket, and the cache stays as it is. */
  lemma CacheHit(files: map<string, Bytes>, hash: string, bucket: Bucket,
                 unpack: Bytes -> seq<ArchiveEntry>, bucket': Bucket,
                 unpack': Bytes -> seq<ArchiveEntry>)
    requires CachePath(hash) in files
    ensures Resolve(files, hash, bucket, unpack).0 == Success(files[CachePath(hash)])
    ensures Resolve(files, hash, bucket, unpack).1 == files
    ensures Resolve(files, hash, bucket, unpack) == Resolve(files, hash, bucket', unpack')
  {
  }

  /** On a miss `fetch` reads exactly what `download` writes, or fails as it does. */
  lemma CacheMiss(files: map<string, Bytes>, hash: string, bucket: Bucket,
                  unpack: Bytes -> seq<ArchiveEntry>)
    requires CachePath(hash) !in files
    ensures Resolve(files, hash, bucket, unpack).0 == Downloaded(hash, bucket, unpack)
  {
  }

  /**
   * `fetch` only ever adds `<hash>.json`: other files are untouched, nothing
   * is written on failure, and on success the cache holds what was read.
   */
  lemma ResolveWritesOnlyCachePath(files: map<string, Bytes>, hash: string, bucket: Bucket,
                                   unpack: Bytes -> seq<ArchiveEntry>)
    ensures var (r, files') := Resolve(files, hash, bucket, unpack);
      && (forall p | p in files :: p in files' && files'[p] == files[p])
      && (forall p | p in files' :: p in files || p == CachePath(hash))
      && (r.Failure? ==> files' == files)
      && (r.Success? ==> CachePath(hash) in files' && files'[CachePath(hash)] == r.value)
  {
  }

  /** Fetching again after a success is a cache hit with the same answer, whatever the bucket. */
  lemma FetchIdempotent(files: map<string, Bytes>, hash: string, bucket: Bucket,
                        unpack: Bytes -> seq<ArchiveEntry>, bucket': Bucket,
                        unpack': Bytes -> seq<ArchiveEntry>)
    requires Resolve(files, hash, bucket, unpack).0.Success?
    ensures var (r, files') := Resolve(files, hash, bucket, unpack);
      Resolve(files', hash, bucket', unpack') == (r, files')
  {
  }

  // ---------------------------------------------------------------------
  // The cache directory
  // ---------------------------------------------------------------------

  /** The ledger storage directory: file name to contents. */
  class LedgerStorage {
    var files: map<string, Bytes>

    constructor(files: map<string, Bytes>)
      ensures this.files == files
    {
      this.files := files;
    }

    /**
     * The scan of `download` over the entries of an archive: the first ledger
     * entry is written to `to` and the scan stops there.
     */
    method ExtractLedgerEntry(key: string, entries: seq<ArchiveEntry>, to: string)
      returns (found: bool)
      modifies this
      ensures found <==> FirstLedgerEntry(key, entries).Some?
      ensures found ==> files == old(files)[to := entries[FirstLedgerEntry(key, entries).value].content]
      ensures !found ==> files == old(files)
    {
      found := false;
      var k := 0;
      while k < |entries|
        invariant 0 <= k <= |entries|
        invariant !found && files == old(files)
        invariant forall j | 0 <= j < k :: !IsLedgerEntry(key, entries[j].path)
      {
        if IsLedgerEntry(key, entries[k].path) {
          files := files[to := entries[k].content];
          found := true;
          break;
        }
        k := k + 1;
      }
      if found {
        assert FirstLedgerEntry(key, entries) == Some(k);
      }
    }

    /** `Ledger::download`: write the snapshot's ledger to `to`, or fail without writing. */
    method Download(hash: string, bucket: Bucket, unpack: Bytes -> seq<ArchiveEntry>, to: string)
      returns (r: Result<(), SnapshotError>)
      modifies this
      ensures Downloaded(hash, bucket, unpack).Success? ==>
        r.Success? && files == old(files)[to := Downloaded(hash, bucket, unpack).value]
      ensures Downloaded(hash, bucket, unpack).Failure? ==>
        r == Failure(Downloaded(hash, bucket, unpack).error) && files == old(files)
    {
      var matching := FirstContaining(ListObjects(bucket), hash);
      if matching.None? {
        return Failure(SnapshotNotFound(hash));
      }
      var key := bucket[matching.value].key;
      var bytes := bucket[matching.value].content;
      if EndsWith(key, ".json") {
        files := files[to := bytes];
      } else if EndsWith(key, ".tar.gz") || EndsWith(key, ".txt") {
        var found := ExtractLedgerEntry(key, unpack(bytes), to);
        if !found {
          return Failure(EntryNotFound(key));
        }
      } else {
        return Failure(UnsupportedFormat(key));
      }
      return Success(());
    }

    /** `Ledger::fetch`: the bytes of `<hash>.json`, downloading them first on a miss. */
    method Fetch(hash: string, bucket: Bucket, unpack: Bytes -> seq<ArchiveEntry>)
      returns (r: Result<Bytes, SnapshotError>)
      modifies this
      ensures (r, files) == Resolve(old(files), hash, bucket, unpack)
    {
      var dest := CachePath(hash);
      if dest !in files {
        var downloaded := Download(hash, bucket, unpack, dest);
        if downloaded.Failure? {
          return Failure(downloaded.error);
        }
      }
      r := Success(files[dest]);
    }
  }
}
