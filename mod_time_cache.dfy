/** `FileModTimeCache` and the `get_md5sum_str` it caches: a hash is
    reused only while the file's modification time is exactly the one
    recorded when the hash was stored. */
module ModTimeCache {
  import opened Wrappers
  import opened FileTree

  /** What `cache[key]` does: return the stored value, raise KeyError (the
      inherited `__missing__`), or let `os.stat`'s error through. */
  datatype CacheRead = Hit(value: string) | Missing | StatFailed(error: OsError)

  class FileModTimeCache {
    /** The entries of the underlying LRU cache (order and size bound are
        not modelled). */
    var data: map<Path, string>
    /** `mtime_cache`: the modification time recorded when each key was stored. */
    var mtimeCache: map<Path, int>

    /** Every stored key has its mtime recorded, and only those. */
    ghost predicate Valid()
      reads this
    {
      mtimeCache.Keys == data.Keys
    }

    /** A hit hands back exactly what hashing the file now would give: true
        as long as a file's bytes and its permissions change only together
        with its mtime (`chmod` leaves the mtime alone, so a file made
        readable or unreadable breaks it). */
    ghost predicate Coherent(fs: Node, digest: Bytes -> string)
      reads this
    {
      forall k :: k in data && k in mtimeCache && Lookup(fs, k).Some? && mtimeCache[k] == Lookup(fs, k).value.mtime ==>
        Md5sumStr(fs, k, digest) == Success(data[k])
    }

    constructor ()
      ensures Valid() && data == map[] && mtimeCache == map[]
    {
      data := map[];
      mtimeCache := map[];
    }

    /** `__getitem__`: a hit only when the recorded mtime equals the current
        one; a difference either way, or no record, raises KeyError. */
    method GetItem(fs: Node, key: Path) returns (r: CacheRead)
      requires Valid()
      ensures Lookup(fs, key).None? ==> r == StatFailed(FileNotFound)
      ensures Lookup(fs, key).Some? ==>
        r == if key in mtimeCache && mtimeCache[key] == Lookup(fs, key).value.mtime then Hit(data[key]) else Missing
    {
      var node := Lookup(fs, key);
      if node.None? {
        return StatFailed(FileNotFound);
      }
      if key !in mtimeCache || mtimeCache[key] != node.value.mtime {
        return Missing;
      }
      r := Hit(data[key]);
    }

    /** `__setitem__`: store the value and record the file's current mtime. */
    method SetItem(fs: Node, key: Path, value: string)
      requires Valid() && Lookup(fs, key).Some?
      modifies this
      ensures Valid()
      ensures data == old(data)[key := value]
      ensures mtimeCache == old(mtimeCache)[key := Lookup(fs, key).value.mtime]
    {
      data := data[key := value];
      mtimeCache := mtimeCache[key := Lookup(fs, key).value.mtime];
    }

    /** `popitem`: evict some entry (the LRU victim, here any key) together
        with its mtime record; None where the empty cache raises KeyError. */
    method PopItem() returns (r: Option<(Path, string)>)
      requires Valid()
      modifies this
      ensures Valid()
      ensures old(data) == map[] ==> r == None && data == old(data) && mtimeCache == old(mtimeCache)
      ensures old(data) != map[] ==>
        && r.Some? && r.value.0 in old(data) && r.value.1 == old(data)[r.value.0]
        && data == old(data) - {r.value.0} && mtimeCache == old(mtimeCache) - {r.value.0}
    {
      if data == map[] {
        return None;
      }
      var key :| key in data;
      r := Some((key, data[key]));
      data := data - {key};
      mtimeCache := mtimeCache - {key};
    }

    /** `get_md5sum_str` behind `@cachetools.cached`: answer from the cache on
        a hit, otherwise hash the file and store the result. */
    method CachedMd5sum(fs: Node, key: Path, digest: Bytes -> string) returns (r: Result<string, OsError>)
      requires Valid()
      modifies this
      ensures Valid()
      ensures old(Coherent(fs, digest)) ==> Coherent(fs, digest) && r == Md5sumStr(fs, key, digest)
      ensures Lookup(fs, key).None? ==> r == Failure(FileNotFound) && data == old(data) && mtimeCache == old(mtimeCache)
      ensures Lookup(fs, key).Some? && key in old(mtimeCache) && old(mtimeCache)[key] == Lookup(fs, key).value.mtime ==>
        r == Success(old(data)[key]) && data == old(data) && mtimeCache == old(mtimeCache)
      ensures Lookup(fs, key).Some? && !(key in old(mtimeCache) && old(mtimeCache)[key] == Lookup(fs, key).value.mtime) ==>
        && r == Md5sumStr(fs, key, digest)
        && data == (if r.Success? then old(data)[key := r.value] else old(data))
        && mtimeCache == (if r.Success? then old(mtimeCache)[key := Lookup(fs, key).value.mtime] else old(mtimeCache))
    {
      var got := GetItem(fs, key);
      match got
      case Hit(v) =>
        r := Success(v);
      case StatFailed(e) =>
        r := Failure(e);
      case Missing =>
        r := Md5sumStr(fs, key, digest);
        if r.Success? {
          SetItem(fs, key, r.value);
        }
    }
  }
}
