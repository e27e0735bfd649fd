/** The package revision of the server (`gameconf_server/__init__.py`):
    two-level directory enumeration, the mtime-cached diff, and the two
    request handlers. */
module PackageServer {
  import opened Wrappers
  import opened Text
  import opened FileTree
  import opened Requests
  import opened ChangeSet
  import opened Replies
  import opened ModTimeCache

  /** `iter_dir_files`: nothing unless `root` is a directory; then each
      top-level file, and every entry directly inside each top-level
      subdirectory. */
  function IterDirFiles(fs: Node, root: Path): (ps: seq<Path>)
    ensures !IsDir(Lookup(fs, root)) ==> ps == []
  {
    match Lookup(fs, root)
    case Some(Dir(_, l)) => TopLevel(l, root)
    case _ => []
  }

  /** The loop over `root_dir.iterdir()`. */
  function TopLevel(l: Listing, root: Path): (ps: seq<Path>)
    ensures forall p :: p in ps ==> |root| < |p| <= |root| + 2
  {
    match l
    case End => []
    case Item(name, node, next) => Here(name, node, root) + TopLevel(next, root)
  }

  /** One top-level entry: a file is yielded, a subdirectory contributes its
      entries. */
  function Here(name: string, node: Node, root: Path): (ps: seq<Path>)
    ensures forall p :: p in ps ==> |root| < |p| <= |root| + 2
  {
    match node
    case File(_, _, _) => [root + [name]]
    case Dir(_, sub) => Entries(sub, root + [name])
  }

  /** `p.iterdir()`: every entry, file or directory. */
  function Entries(l: Listing, dir: Path): (ps: seq<Path>)
    ensures forall p :: p in ps ==> |p| == |dir| + 1
  {
    match l
    case End => []
    case Item(name, _, next) => [dir + [name]] + Entries(next, dir)
  }

  /** Every path `iter_dir_files` yields lies one or two levels below the
      root. */
  lemma IterDirFilesBounds(fs: Node, root: Path)
    ensures forall p :: p in IterDirFiles(fs, root) ==> |root| < |p| <= |root| + 2 && root <= p
  {
    if IsDir(Lookup(fs, root)) {
      TopLevelBounds(Lookup(fs, root).value.listing, root);
    }
  }

  lemma {:induction false} TopLevelBounds(l: Listing, root: Path)
    ensures forall p :: p in TopLevel(l, root) ==> |root| < |p| <= |root| + 2 && root <= p
  {
    match l
    case End =>
    case Item(name, node, next) =>
      TopLevelBounds(next, root);
      match node
      case File(_, _, _) =>
      case Dir(_, sub) => EntriesBounds(sub, root + [name]);
  }

  lemma {:induction false} EntriesBounds(l: Listing, dir: Path)
    ensures forall p :: p in Entries(l, dir) ==> |p| == |dir| + 1 && dir <= p
  {
    match l
    case End =>
    case Item(name, _, next) => EntriesBounds(next, dir);
  }

  lemma {:induction false} EntriesIff(l: Listing, dir: Path, p: Path)
    ensures p in Entries(l, dir) <==> |p| == |dir| + 1 && dir <= p && Child(l, p[|dir|]).Some?
  {
    match l
    case End =>
    case Item(name, _, next) =>
      EntriesIff(next, dir, p);
      if |p| == |dir| + 1 && dir <= p {
        assert p == dir + [p[|dir|]];
      }
  }

  /** `p` is what top-level entry `c` of `root` contributes. */
  predicate NodeShape(c: Node, root: Path, p: Path)
    requires |root| < |p|
  {
    || (|p| == |root| + 1 && c.File?)
    || (|p| == |root| + 2 && c.Dir? && Child(c.listing, p[|root| + 1]).Some?)
  }

  predicate TopShape(l: Listing, root: Path, p: Path) {
    |root| < |p| && root <= p && Child(l, p[|root|]).Some? && NodeShape(Child(l, p[|root|]).value, root, p)
  }

  lemma HereIff(name: string, node: Node, root: Path, p: Path)
    ensures p in Here(name, node, root) <==> |root| < |p| && root <= p && p[|root|] == name && NodeShape(node, root, p)
  {
    match node
    case File(_, _, _) =>
      if |root| < |p| && root <= p && p[|root|] == name && |p| == |root| + 1 {
        assert p == root + [name];
      }
    case Dir(_, sub) =>
      EntriesIff(sub, root + [name], p);
      if |root| < |p| && root <= p && p[|root|] == name {
        assert p[..|root| + 1] == root + [name];
      }
  }

  /** What the loop yields for one directory listing. */
  lemma {:induction false} TopLevelIff(l: Listing, root: Path, p: Path)
    requires WellFormedListing(l)
    ensures p in TopLevel(l, root) <==> TopShape(l, root, p)
  {
    match l
    case End =>
    case Item(name, node, next) =>
      TopLevelIff(next, root, p);
      HereIff(name, node, root, p);
      assert p in TopLevel(l, root) <==> p in Here(name, node, root) || p in TopLevel(next, root);
      if |root| < |p| && root <= p && p[|root|] == name {
        assert Child(next, name).None?;
      }
  }

  /** A lookup one level below a directory is a listing lookup. */
  lemma DepthOne(fs: Node, root: Path, d: Node, a: string)
    requires Lookup(fs, root) == Some(d) && d.Dir?
    ensures Lookup(fs, root + [a]) == Child(d.listing, a)
  {
    LookupAppend(fs, root, [a]);
    assert [a][1..] == [];
  }

  lemma LookupBelow(c: Node, b: string)
    ensures Lookup(c, [b]) == if c.Dir? then Child(c.listing, b) else None
  {
    assert [b][1..] == [];
  }

  /** A lookup two levels below a directory. */
  lemma DepthTwo(fs: Node, root: Path, d: Node, a: string, b: string)
    requires Lookup(fs, root) == Some(d) && d.Dir?
    ensures Lookup(fs, root + [a, b]) ==
      if Child(d.listing, a).Some? && Child(d.listing, a).value.Dir?
      then Child(Child(d.listing, a).value.listing, b) else None
  {
    LookupAppend(fs, root, [a, b]);
    assert [a, b][0] == a && [a, b][1..] == [b];
    if Child(d.listing, a).Some? {
      LookupBelow(Child(d.listing, a).value, b);
    }
  }

  /** A path one level below the root is yielded exactly when the root is a
      directory and the path names a file in it. */
  lemma IterDirFilesFile(fs: Node, root: Path, a: string)
    requires WellFormed(fs)
    ensures root + [a] in IterDirFiles(fs, root) <==> IsDir(Lookup(fs, root)) && IsFile(Lookup(fs, root + [a]))
  {
    if IsDir(Lookup(fs, root)) {
      var d := Lookup(fs, root).value;
      LookupWellFormed(fs, root);
      TopLevelIff(d.listing, root, root + [a]);
      DepthOne(fs, root, d, a);
      assert (root + [a])[|root|] == a;
    }
  }

  /** A path two levels below the root is yielded exactly when the root and
      the path's parent are directories and the path exists, whatever kind
      of entry it is. */
  lemma IterDirFilesEntry(fs: Node, root: Path, a: string, b: string)
    requires WellFormed(fs)
    ensures root + [a, b] in IterDirFiles(fs, root) <==>
      IsDir(Lookup(fs, root)) && IsDir(Lookup(fs, root + [a])) && Lookup(fs, root + [a, b]).Some?
  {
    if IsDir(Lookup(fs, root)) {
      var d := Lookup(fs, root).value;
      LookupWellFormed(fs, root);
      TopLevelIff(d.listing, root, root + [a, b]);
      DepthOne(fs, root, d, a);
      DepthTwo(fs, root, d, a, b);
      assert (root + [a, b])[|root|] == a && (root + [a, b])[|root| + 1] == b;
    }
  }

  /** `iter_dir_files(pathlib.Path(name))` for a gameconf directory named
      relative to the working directory. */
  function DirFiles(fs: Node, name: string): (ps: seq<Path>)
    ensures forall p :: p in ps ==> |p| >= 2
  {
    IterDirFilesBounds(fs, [name]);
    IterDirFiles(fs, [name])
  }

  /** The two directories searched, in order: the version directory, then
      `thirdparty`. */
  function LocalFiles(fs: Node, version: seq<int>): seq<Path>
  {
    DirFiles(fs, DirName(version)) + DirFiles(fs, "thirdparty")
  }

  /** A local path `dir/rest`: looked up remotely as `rest`, fetched at the
      full path. */
  function CandidateOf(p: Path): (c: Candidate)
    requires |p| >= 1
    ensures LocalPath(c) == p && Location(c) == Join(p, "/") && Key(c) == Join(p[1..], "/")
  {
    assert p[..1] + p[1..] == p;
    Candidate(p[..1], p[1..])
  }

  function Candidates(ps: seq<Path>): seq<Candidate>
    requires forall p :: p in ps ==> |p| >= 1
  {
    seq(|ps|, i requires 0 <= i < |ps| => CandidateOf(ps[i]))
  }

  lemma CandidatesAppend(a: seq<Path>, b: seq<Path>)
    requires forall p :: p in a ==> |p| >= 1
    requires forall p :: p in b ==> |p| >= 1
    ensures Candidates(a + b) == Candidates(a) + Candidates(b)
  {
  }

  /** All of `get_changed_gameconf`'s output, as the files are now. */
  function Changes(fs: Node, version: seq<int>, submitted: map<string, string>, digest: Bytes -> string): (r: Result<seq<Change>, OsError>)
    ensures r.Success? ==> forall ch :: ch in r.value ==>
      ch.name in RemoteFiles(submitted) && RemoteFiles(submitted)[ch.name] != "" && RemoteFiles(submitted)[ch.name] != ch.info.md5sum
  {
    var d := Diff(fs, Candidates(LocalFiles(fs, version)), RemoteFiles(submitted), digest);
    if d.Success? then DiffDiffers(fs, Candidates(LocalFiles(fs, version)), RemoteFiles(submitted), digest); d
    else d
  }

  /** Everything from the version directory is yielded before anything from
      `thirdparty`. */
  lemma ChangesOrder(fs: Node, version: seq<int>, submitted: map<string, string>, digest: Bytes -> string)
    ensures Changes(fs, version, submitted, digest) ==
      Then(Diff(fs, Candidates(DirFiles(fs, DirName(version))), RemoteFiles(submitted), digest),
           Diff(fs, Candidates(DirFiles(fs, "thirdparty")), RemoteFiles(submitted), digest))
  {
    var a := DirFiles(fs, DirName(version));
    var b := DirFiles(fs, "thirdparty");
    CandidatesAppend(a, b);
    DiffAppend(fs, Candidates(a), Candidates(b), RemoteFiles(submitted), digest);
  }

  /** Each change names a local file by its path minus the directory, has a
      non-empty submitted hash that differs from the local one, and is
      located at the full local path. */
  lemma ChangesSound(fs: Node, version: seq<int>, submitted: map<string, string>, digest: Bytes -> string)
    ensures Changes(fs, version, submitted, digest).Success? ==>
      forall ch :: ch in Changes(fs, version, submitted, digest).value ==>
        exists p :: p in LocalFiles(fs, version) && Yields(fs, RemoteFiles(submitted), digest, p, ch)
  {
    if !Changes(fs, version, submitted, digest).Success? {
      return;
    }
    CandidatesSound(fs, LocalFiles(fs, version), RemoteFiles(submitted), digest);
  }

  lemma CandidatesSound(fs: Node, ps: seq<Path>, remote: map<string, string>, digest: Bytes -> string)
    requires forall p :: p in ps ==> |p| >= 1
    requires Diff(fs, Candidates(ps), remote, digest).Success?
    ensures forall ch :: ch in Diff(fs, Candidates(ps), remote, digest).value ==>
      exists p :: p in ps && Yields(fs, remote, digest, p, ch)
  {
    var cs := Candidates(ps);
    DiffSound(fs, cs, remote, digest);
    forall ch | ch in Diff(fs, cs, remote, digest).value
      ensures exists p :: p in ps && Yields(fs, remote, digest, p, ch)
    {
      var c :| c in cs && Reports(fs, remote, digest, c, ch);
      var i :| 0 <= i < |cs| && cs[i] == c;
      ReportsYields(fs, remote, digest, ps[i], ch);
    }
  }

  lemma ReportsYields(fs: Node, remote: map<string, string>, digest: Bytes -> string, p: Path, ch: Change)
    requires |p| >= 1 && Reports(fs, remote, digest, CandidateOf(p), ch)
    ensures Yields(fs, remote, digest, p, ch)
  {
    var c := CandidateOf(p);
    assert LocalPath(c) == p && Key(c) == Join(p[1..], "/") && Location(c) == Join(p, "/");
  }

  /** Local path `p` is reported as `ch`. */
  predicate Yields(fs: Node, remote: map<string, string>, digest: Bytes -> string, p: Path, ch: Change)
  {
    && |p| >= 1
    && ch.name == Join(p[1..], "/") && ch.info.location == Join(p, "/")
    && ch.name in remote && remote[ch.name] != "" && remote[ch.name] != ch.info.md5sum
    && Md5sumStr(fs, p, digest) == Success(ch.info.md5sum)
  }

  lemma PrependNothing(rest: Result<seq<Change>, OsError>)
    ensures Prepend([], rest) == rest
  {
    match rest
    case Failure(_) =>
    case Success(more) => assert [] + more == more;
  }

  /** A turn of the generator loop that yields nothing. */
  lemma DiffSkip(fs: Node, cs: seq<Candidate>, i: nat, remote: map<string, string>, digest: Bytes -> string)
    requires i < |cs|
    requires !Wanted(remote, cs[i]) || Md5sumStr(fs, LocalPath(cs[i]), digest) == Success(remote[Key(cs[i])])
    ensures Diff(fs, cs[i..], remote, digest) == Diff(fs, cs[i + 1..], remote, digest)
  {
    assert cs[i..][0] == cs[i] && cs[i..][1..] == cs[i + 1..];
  }

  /** A turn of the generator loop whose hashing raises. */
  lemma DiffHalt(fs: Node, cs: seq<Candidate>, i: nat, remote: map<string, string>, digest: Bytes -> string, found: seq<Change>)
    requires i < |cs|
    requires Wanted(remote, cs[i]) && Md5sumStr(fs, LocalPath(cs[i]), digest).Failure?
    ensures Prepend(found, Diff(fs, cs[i..], remote, digest)) == Failure(Md5sumStr(fs, LocalPath(cs[i]), digest).error)
  {
    assert cs[i..][0] == cs[i];
  }

  /** A turn of the generator loop that yields a change. */
  lemma DiffYield(fs: Node, cs: seq<Candidate>, i: nat, remote: map<string, string>, digest: Bytes -> string, found: seq<Change>, h: string)
    requires i < |cs|
    requires Wanted(remote, cs[i]) && Md5sumStr(fs, LocalPath(cs[i]), digest) == Success(h) && h != remote[Key(cs[i])]
    ensures Prepend(found, Diff(fs, cs[i..], remote, digest)) ==
      Prepend(found + [Change(Key(cs[i]), Info(h, Location(cs[i])))], Diff(fs, cs[i + 1..], remote, digest))
  {
    assert cs[i..][0] == cs[i] && cs[i..][1..] == cs[i + 1..];
    match Diff(fs, cs[i + 1..], remote, digest)
    case Failure(_) =>
    case Success(more) =>
      var ch := Change(Key(cs[i]), Info(h, Location(cs[i])));
      assert found + ([ch] + more) == (found + [ch]) + more;
  }

  /** `get_changed_gameconf` run to the end, hashing through the cache. */
  method ChangedGameconf(cache: FileModTimeCache, fs: Node, version: seq<int>, submitted: map<string, string>, digest: Bytes -> string)
    returns (r: Result<seq<Change>, OsError>)
    requires cache.Valid()
    modifies cache
    ensures cache.Valid()
    ensures old(cache.Coherent(fs, digest)) ==> cache.Coherent(fs, digest) && r == Changes(fs, version, submitted, digest)
    ensures r.Success? ==> AllCurrent(fs, Candidates(LocalFiles(fs, version)), RemoteFiles(submitted), cache.mtimeCache)
    ensures OnlyCandidatesChanged(Candidates(LocalFiles(fs, version)), old(cache.data), old(cache.mtimeCache), cache.data, cache.mtimeCache)
  {
    r := Scan(cache, fs, Candidates(LocalFiles(fs, version)), RemoteFiles(submitted), digest);
  }

  /** The generator loop over the candidates, against the stripped
      submitted map. */
  method Scan(cache: FileModTimeCache, fs: Node, cs: seq<Candidate>, remote: map<string, string>, digest: Bytes -> string)
    returns (r: Result<seq<Change>, OsError>)
    requires cache.Valid()
    modifies cache
    ensures cache.Valid()
    ensures old(cache.Coherent(fs, digest)) ==> cache.Coherent(fs, digest) && r == Diff(fs, cs, remote, digest)
    ensures r.Success? ==> AllCurrent(fs, cs, remote, cache.mtimeCache)
    ensures OnlyCandidatesChanged(cs, old(cache.data), old(cache.mtimeCache), cache.data, cache.mtimeCache)
  {
    ghost var coherent := cache.Coherent(fs, digest);
    ghost var data0, mt0 := cache.data, cache.mtimeCache;
    var found: seq<Change> := [];
    var i := 0;
    assert cs[0..] == cs;
    PrependNothing(Diff(fs, cs, remote, digest));
    while i < |cs|
      invariant 0 <= i <= |cs|
      invariant cache.Valid()
      invariant coherent ==> cache.Coherent(fs, digest)
      invariant coherent ==> Prepend(found, Diff(fs, cs[i..], remote, digest)) == Diff(fs, cs, remote, digest)
      invariant AllCurrent(fs, cs[..i], remote, cache.mtimeCache)
      invariant OnlyCandidatesChanged(cs, data0, mt0, cache.data, cache.mtimeCache)
    {
      var c := cs[i];
      ghost var data1, mt1 := cache.data, cache.mtimeCache;
      var key := Key(c);
      if key in remote && remote[key] != "" {
        var localHash := cache.CachedMd5sum(fs, LocalPath(c), digest);
        OnlyCandidatesStep(cs, c, data0, mt0, data1, mt1, cache.data, cache.mtimeCache);
        if localHash.Failure? {
          if coherent {
            DiffHalt(fs, cs, i, remote, digest, found);
          }
          return Failure(localHash.error);
        }
        if remote[key] != localHash.value {
          if coherent {
            DiffYield(fs, cs, i, remote, digest, found, localHash.value);
          }
          found := found + [Change(key, Info(localHash.value, Location(c)))];
        } else if coherent {
          DiffSkip(fs, cs, i, remote, digest);
        }
      } else if coherent {
        DiffSkip(fs, cs, i, remote, digest);
      }
      AllCurrentStep(fs, cs, i, remote, mt1, cache.mtimeCache);
      i := i + 1;
    }
    assert cs[..i] == cs;
    assert found + [] == found;
    r := Success(found);
  }

  /** Every candidate of `cs` with a non-empty submitted hash has its entry
      recorded at the file's current mtime, so hashing it again is a hit. */
  ghost predicate AllCurrent(fs: Node, cs: seq<Candidate>, remote: map<string, string>, mt: map<Path, int>) {
    forall c :: c in cs && Wanted(remote, c) ==>
      Lookup(fs, LocalPath(c)).Some? && LocalPath(c) in mt && mt[LocalPath(c)] == Lookup(fs, LocalPath(c)).value.mtime
  }

  /** Two states of the cache agree on every key that is not the local path
      of one of the candidates. */
  ghost predicate OnlyCandidatesChanged(cs: seq<Candidate>, data0: map<Path, string>, mt0: map<Path, int>,
                                        data1: map<Path, string>, mt1: map<Path, int>) {
    forall k :: (forall c :: c in cs ==> LocalPath(c) != k) ==>
      && (k in data1 <==> k in data0) && (k in data1 ==> data1[k] == data0[k])
      && (k in mt1 <==> k in mt0) && (k in mt1 ==> mt1[k] == mt0[k])
  }

  /** Storing at one candidate's local path keeps the other keys as they were. */
  lemma OnlyCandidatesStep(cs: seq<Candidate>, c: Candidate, data0: map<Path, string>, mt0: map<Path, int>,
                           data1: map<Path, string>, mt1: map<Path, int>, data2: map<Path, string>, mt2: map<Path, int>)
    requires c in cs
    requires OnlyCandidatesChanged(cs, data0, mt0, data1, mt1)
    requires data2 == data1 || (LocalPath(c) in data2 && data2 == data1[LocalPath(c) := data2[LocalPath(c)]])
    requires mt2 == mt1 || (LocalPath(c) in mt2 && mt2 == mt1[LocalPath(c) := mt2[LocalPath(c)]])
    ensures OnlyCandidatesChanged(cs, data0, mt0, data2, mt2)
  {
  }

  /** One more candidate visited: an update records the current mtime, and a
      wanted candidate ends up current. */
  lemma AllCurrentStep(fs: Node, cs: seq<Candidate>, i: int, remote: map<string, string>, mt1: map<Path, int>, mt2: map<Path, int>)
    requires 0 <= i < |cs|
    requires AllCurrent(fs, cs[..i], remote, mt1)
    requires mt2 == mt1 || (Lookup(fs, LocalPath(cs[i])).Some? && mt2 == mt1[LocalPath(cs[i]) := Lookup(fs, LocalPath(cs[i])).value.mtime])
    requires Wanted(remote, cs[i]) ==>
      Lookup(fs, LocalPath(cs[i])).Some? && LocalPath(cs[i]) in mt2 && mt2[LocalPath(cs[i])] == Lookup(fs, LocalPath(cs[i])).value.mtime
    ensures AllCurrent(fs, cs[..i + 1], remote, mt2)
  {
    assert cs[..i + 1] == cs[..i] + [cs[i]];
  }

  /** `is_path_under(root, p)`: despite its name and doc-comment it is true
      when `p` is OUTSIDE `root`. */
  function IsPathUnder(root: Path, p: Path): (outside: bool)
    ensures outside <==> !(root <= p)
  {
    CommonPrefixIsSecond(p, root);
    CommonPrefix(p, root) != root
  }

  /** `do_GET` on the canonical request path (`resolve()` is not modelled). */
  function DoGet(disk: Node, cwd: Path, requestPath: Path): (r: GetReply)
    ensures r == Forbidden <==> !(cwd <= requestPath)
    ensures r.Serve? ==> IsFile(Lookup(disk, requestPath)) && r.content == Lookup(disk, requestPath).value.content
  {
    if IsPathUnder(cwd, requestPath) then Forbidden
    else ServeFile(Lookup(disk, requestPath), |requestPath| > 0 && TxtName(requestPath[|requestPath| - 1]))
  }

  /** 403 exactly for a path outside the working directory; otherwise 404
      unless it is a regular `.txt` file, whose bytes are served. */
  lemma DoGetSpec(disk: Node, cwd: Path, requestPath: Path)
    ensures StatusCode(DoGet(disk, cwd, requestPath)) == 403 <==> !(cwd <= requestPath)
    ensures StatusCode(DoGet(disk, cwd, requestPath)) == 404 <==>
      cwd <= requestPath && !(IsFile(Lookup(disk, requestPath)) && |requestPath| > 0 && TxtName(requestPath[|requestPath| - 1]))
    ensures DoGet(disk, cwd, requestPath).Serve? ==>
      cwd <= requestPath && IsFile(Lookup(disk, requestPath))
      && DoGet(disk, cwd, requestPath).content == Lookup(disk, requestPath).value.content
  {
  }

  /** The whole answer to a POST, as the files are now. */
  function PostAnswer(path: string, data: map<string, string>, fs: Node, digest: Bytes -> string): (reply: PostReply)
    ensures reply.RoutedToGet? <==> path != "/"
    ensures reply.Errors? ==> reply.error == ParseFailure || reply.error == UnsupportedVersion
    ensures reply.Changed? ==> PostPlan(data).Proceed?
  {
    if path != "/" then RoutedToGet
    else
      match PostPlan(data)
      case Reject(message) => Errors(message)
      case Crash => Aborted
      case Proceed(version, submitted) =>
        match Changes(fs, version, submitted, digest)
        case Failure(_) => Aborted
        case Success(ys) => Changed(LastWins(ys))
  }

  /** Every entry of a `Changed` answer has a non-empty submitted hash that
      differs from the local hash it reports. */
  lemma PostAnswerChanged(path: string, data: map<string, string>, fs: Node, digest: Bytes -> string)
    ensures PostAnswer(path, data, fs, digest).Changed? ==>
            var changes := PostAnswer(path, data, fs, digest).changes;
            var remote := RemoteFiles(PostPlan(data).submitted);
            forall name :: name in changes ==> name in remote && remote[name] != "" && remote[name] != changes[name].md5sum
  {
    if !PostAnswer(path, data, fs, digest).Changed? {
      return;
    }
    var plan := PostPlan(data);
    var ys := Changes(fs, plan.version, plan.submitted, digest).value;
    var remote := RemoteFiles(plan.submitted);
    LastWinsLatest(ys);
    forall name | name in LastWins(ys)
      ensures name in remote && remote[name] != "" && remote[name] != LastWins(ys)[name].md5sum
    {
      var i :| LastAt(ys, i, name) && LastWins(ys)[name] == ys[i].info;
      assert ys[i] in ys;
    }
  }

  /** `do_POST`. */
  method DoPost(cache: FileModTimeCache, path: string, data: map<string, string>, fs: Node, digest: Bytes -> string)
    returns (reply: PostReply)
    requires cache.Valid()
    modifies cache
    ensures cache.Valid()
    ensures old(cache.Coherent(fs, digest)) ==> cache.Coherent(fs, digest) && reply == PostAnswer(path, data, fs, digest)
    ensures reply.RoutedToGet? || reply.Errors? ==> cache.data == old(cache.data) && cache.mtimeCache == old(cache.mtimeCache)
    ensures path != "/" || !PostPlan(data).Proceed? ==> cache.data == old(cache.data) && cache.mtimeCache == old(cache.mtimeCache)
    ensures path == "/" && PostPlan(data).Proceed? ==>
      OnlyCandidatesChanged(Candidates(LocalFiles(fs, PostPlan(data).version)), old(cache.data), old(cache.mtimeCache), cache.data, cache.mtimeCache)
    ensures reply.Changed? ==> path == "/" && PostPlan(data).Proceed?
    ensures reply.Changed? && PostPlan(data).Proceed? ==>
      AllCurrent(fs, Candidates(LocalFiles(fs, PostPlan(data).version)), RemoteFiles(PostPlan(data).submitted), cache.mtimeCache)
  {
    if path != "/" {
      return RoutedToGet;
    }
    match PostPlan(data)
    case Reject(message) =>
      reply := Errors(message);
    case Crash =>
      reply := Aborted;
    case Proceed(version, submitted) =>
      var yielded := ChangedGameconf(cache, fs, version, submitted, digest);
      if yielded.Failure? {
        return Aborted;
      }
      var changes := BuildChanges(yielded.value);
      reply := Changed(changes);
  }
}
