/** `GameConfigDirectory`: a directory of gameconf files with a cache from a
    file's relative path to the modification time it had when it was last
    hashed and the hash computed then. */
module HashDirectory {
  import opened Wrappers
  import opened FileTree

  /** One `md5sums` value: `(last_mtime, md5sum)`. */
  datatype CacheEntry = CacheEntry(mtime: int, md5sum: Option<string>)

  /** The default `(0, None)` used for a path with no entry. */
  const Unseen := CacheEntry(0, None)

  function Cached(md5sums: map<Path, CacheEntry>, p: Path): CacheEntry {
    if p in md5sums then md5sums[p] else Unseen
  }

  /** `mtime > cached_mtime or cached_md5sum is None`. */
  predicate Stale(e: CacheEntry, mtime: int)
    ensures e == Unseen ==> Stale(e, mtime)
  {
    mtime > e.mtime || e.md5sum.None?
  }

  /** `_get_file_hash_impl`: None for a missing path or a file that `open`
      refuses with PermissionError, the digest of the bytes otherwise;
      opening a directory raises. */
  function FileHashImpl(fs: Node, target: Path, digest: Bytes -> string): (r: Result<Option<string>, OsError>)
    ensures r.Failure? <==> IsDir(Lookup(fs, target))
    ensures r == Success(None) <==> Lookup(fs, target).None? || (IsFile(Lookup(fs, target)) && !Lookup(fs, target).value.readable)
    ensures r.Success? && r.value.Some? ==>
      IsFile(Lookup(fs, target)) && r.value.value == digest(Lookup(fs, target).value.content)
  {
    match Lookup(fs, target)
    case None => Success(None)
    case Some(Dir(_, _)) => Failure(IsADirectory)
    case Some(File(_, content, readable)) => Success(if readable then Some(digest(content)) else None)
  }

  /** What one `get_file_hash` call returns, the cache it leaves behind and
      whether it read the file. */
  datatype Outcome = Outcome(result: Result<Option<string>, OsError>, md5sums: map<Path, CacheEntry>, hashed: bool)

  /** One `get_file_hash(file_path)` call on a directory rooted at `root`. */
  function Refresh(md5sums: map<Path, CacheEntry>, fs: Node, root: Path, filePath: Path, digest: Bytes -> string): (o: Outcome)
    // A missing file gives None and leaves the cache alone.
    ensures Lookup(fs, root + filePath).None? ==> o == Outcome(Success(None), md5sums, false)
    // A stale or unusable entry is recomputed and overwritten with the current mtime.
    ensures Lookup(fs, root + filePath).Some? && Stale(Cached(md5sums, filePath), Lookup(fs, root + filePath).value.mtime) ==>
      && o.hashed
      && o.result == FileHashImpl(fs, root + filePath, digest)
      && o.md5sums == if o.result.Success?
                      then md5sums[filePath := CacheEntry(Lookup(fs, root + filePath).value.mtime, o.result.value)]
                      else md5sums
    // A usable hash with an mtime that did not advance (or moved back) is reused without reading.
    ensures Lookup(fs, root + filePath).Some? && !Stale(Cached(md5sums, filePath), Lookup(fs, root + filePath).value.mtime) ==>
      && filePath in md5sums && md5sums[filePath].md5sum.Some?
      && o == Outcome(Success(md5sums[filePath].md5sum), md5sums, false)
    // Only the entry for file_path can change.
    ensures forall k :: k != filePath ==> (k in o.md5sums <==> k in md5sums) && Cached(o.md5sums, k) == Cached(md5sums, k)
    // For an existing file the answer is the hash now cached for it.
    ensures Lookup(fs, root + filePath).Some? && o.result.Success? ==>
      filePath in o.md5sums && o.result.value == o.md5sums[filePath].md5sum
  {
    var cached := Cached(md5sums, filePath);
    var target := root + filePath;
    match Lookup(fs, target)
    case None => Outcome(Success(None), md5sums, false)
    case Some(node) =>
      if Stale(cached, node.mtime) then
        match FileHashImpl(fs, target, digest)
        case Failure(e) => Outcome(Failure(e), md5sums, true)
        case Success(h) => Outcome(Success(h), md5sums[filePath := CacheEntry(node.mtime, h)], true)
      else Outcome(Success(cached.md5sum), md5sums, false)
  }

  /** Asking twice about an unchanged file gives the same answer, and the
      second call reads nothing when the first produced a hash. */
  lemma RefreshIdempotent(md5sums: map<Path, CacheEntry>, fs: Node, root: Path, filePath: Path, digest: Bytes -> string)
    ensures var first := Refresh(md5sums, fs, root, filePath, digest);
            var second := Refresh(first.md5sums, fs, root, filePath, digest);
            && second.result == first.result
            && (first.result.Success? && first.result.value.Some? ==> !second.hashed && second.md5sums == first.md5sums)
  {
  }

  /** Reading an unreadable file gives None; the None is stored but
      never trusted, so the next call reads the file again. (A hash cached
      before the file became unreadable is still reused while the mtime
      does not advance.) */
  lemma UnreadableRetried(md5sums: map<Path, CacheEntry>, fs: Node, root: Path, filePath: Path, digest: Bytes -> string)
    requires IsFile(Lookup(fs, root + filePath)) && !Lookup(fs, root + filePath).value.readable
    ensures var first := Refresh(md5sums, fs, root, filePath, digest);
            first.hashed ==>
              && first.result == Success(None)
              && first.md5sums[filePath] == CacheEntry(Lookup(fs, root + filePath).value.mtime, None)
              && Refresh(first.md5sums, fs, root, filePath, digest).hashed
  {
  }

  class GameConfigDirectory {
    const path: Path
    /** name -> (last_mtime, md5sum) */
    var md5sums: map<Path, CacheEntry>

    constructor (path: Path)
      ensures this.path == path && md5sums == map[]
    {
      this.path := path;
      md5sums := map[];
    }

    /** Every request may use this directory. */
    function ValidDirectory(data: map<string, string>): (ok: bool)
      ensures ok
    {
      true
    }

    /** `get_file_hash`: `hashed` tells whether the file was read. */
    method GetFileHash(fs: Node, filePath: Path, digest: Bytes -> string) returns (r: Result<Option<string>, OsError>, hashed: bool)
      modifies this
      ensures Outcome(r, md5sums, hashed) == Refresh(old(md5sums), fs, path, filePath, digest)
    {
      var cached := if filePath in md5sums then md5sums[filePath] else Unseen;
      var target := path + filePath;
      var node := Lookup(fs, target);
      if node.None? {
        return Success(None), false;
      }
      var mtime := node.value.mtime;
      hashed := false;
      if mtime > cached.mtime || cached.md5sum.None? {
        hashed := true;
        var h := FileHashImpl(fs, target, digest);
        if h.Failure? {
          return Failure(h.error), hashed;
        }
        md5sums := md5sums[filePath := CacheEntry(mtime, h.value)];
      }
      r := Success(if filePath in md5sums then md5sums[filePath].md5sum else None);
    }
  }
}
