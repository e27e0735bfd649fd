/** The standalone script revision of the server (`gameconf_server.py`):
    a recursive `os.walk` enumeration, an uncached diff, and a `do_GET`
    that confines requests with a character-level string prefix. */
module ScriptServer {
  import opened Wrappers
  import opened Text
  import opened FileTree
  import opened Requests
  import opened ChangeSet
  import opened Replies

  /** The files `os.walk` reports directly in a directory with listing `l`,
      in listing order, each as a one-component relative path. */
  function Files(l: Listing): (ps: seq<Path>)
    ensures forall q :: q in ps ==> |q| == 1
  {
    match l
    case End => []
    case Item(name, File(_, _, _), next) => [[name]] + Files(next)
    case Item(_, Dir(_, _), next) => Files(next)
  }

  /** Every path of `ps` placed below the entry `name`. */
  function Below(name: string, ps: seq<Path>): seq<Path>
  {
    seq(|ps|, i requires 0 <= i < |ps| => [name] + ps[i])
  }

  /** `os.walk` top-down from a directory with listing `l`: the directory's
      own files first, then each subdirectory walked in turn, every file as
      a path relative to the walk's root. */
  function Walk(l: Listing): (ps: seq<Path>)
    ensures forall q :: q in ps ==> |q| >= 1
    decreases l, 1
  {
    Files(l) + SubWalks(l)
  }

  /** The walks of the subdirectories of `l`, in listing order. */
  function SubWalks(l: Listing): (ps: seq<Path>)
    ensures forall q :: q in ps ==> |q| >= 2
    decreases l, 0
  {
    match l
    case End => []
    case Item(_, File(_, _, _), next) => SubWalks(next)
    case Item(name, Dir(_, sub), next) => Below(name, Walk(sub)) + SubWalks(next)
  }

  lemma BelowIff(name: string, ps: seq<Path>, q: Path)
    ensures q in Below(name, ps) <==> |q| >= 1 && q[0] == name && q[1..] in ps
  {
    if q in Below(name, ps) {
      var i :| 0 <= i < |ps| && Below(name, ps)[i] == q;
      assert q[1..] == ps[i];
    }
    if |q| >= 1 && q[0] == name && q[1..] in ps {
      var i :| 0 <= i < |ps| && ps[i] == q[1..];
      assert Below(name, ps)[i] == q;
    }
  }

  /** The directory's own files are its one-component file paths. */
  lemma {:induction false} FilesIff(l: Listing, q: Path)
    requires WellFormedListing(l)
    ensures q in Files(l) <==> |q| == 1 && IsFile(Lookup(Dir(0, l), q))
  {
    match l
    case End =>
    case Item(name, node, next) =>
      FilesIff(next, q);
      if q != [] {
        LookupStep(0, name, node, next, q);
        if q[0] == name {
          assert Lookup(Dir(0, next), q) == None;
        }
      }
      if node.File? {
        assert Files(l) == [[name]] + Files(next);
        if |q| == 1 && q[0] == name {
          assert q == [name];
        }
      }
  }

  /** The subdirectory walks give exactly the files two or more levels down. */
  lemma {:induction false} SubWalksIff(l: Listing, q: Path)
    requires WellFormedListing(l)
    ensures q in SubWalks(l) <==> |q| >= 2 && IsFile(Lookup(Dir(0, l), q))
    decreases l, 0
  {
    match l
    case End =>
    case Item(name, node, next) =>
      SubWalksIff(next, q);
      if q != [] {
        LookupStep(0, name, node, next, q);
      }
      match node
      case File(_, _, _) =>
      case Dir(m, sub) =>
        BelowIff(name, Walk(sub), q);
        if q != [] && q[0] == name {
          WalkIff(sub, q[1..]);
          if |q| >= 2 {
            LookupAnyTime(m, sub, q[1..]);
          }
        }
  }

  /** `os.walk` yields every file at any depth below the directory, and
      nothing else. */
  lemma {:induction false} WalkIff(l: Listing, q: Path)
    requires WellFormedListing(l)
    ensures q in Walk(l) <==> |q| >= 1 && IsFile(Lookup(Dir(0, l), q))
    decreases l, 1
  {
    FilesIff(l, q);
    SubWalksIff(l, q);
  }

  /** Each relative path paired with the root it was found under. */
  function Pair(root: Path, rels: seq<Path>): seq<Candidate>
  {
    seq(|rels|, i requires 0 <= i < |rels| => Candidate(root, rels[i]))
  }

  lemma PairIff(root: Path, rels: seq<Path>, c: Candidate)
    ensures c in Pair(root, rels) <==> c.root == root && c.rel in rels
  {
    if c.root == root && c.rel in rels {
      var i :| 0 <= i < |rels| && rels[i] == c.rel;
      assert Pair(root, rels)[i] == c;
    }
  }

  /** `gameconf_files(root_dir)`: nothing for `None` or an empty name, nothing
      when the root is not a directory (`os.walk` swallows the error), and
      otherwise every file below it, paired with the root. */
  function GameconfFiles(fs: Node, root: Option<string>): (cs: seq<Candidate>)
    ensures root.None? || root == Some("") ==> cs == []
    ensures forall c :: c in cs ==> root.Some? && c.root == [root.value] && |c.rel| >= 1
  {
    if root.None? || root.value == "" then []
    else
      match Lookup(fs, [root.value])
      case Some(Dir(_, l)) => Pair([root.value], Walk(l))
      case _ => []
  }

  /** A candidate is yielded exactly when it is a regular file at any depth
      below a named root. */
  lemma GameconfFilesIff(fs: Node, root: Option<string>, c: Candidate)
    requires WellFormed(fs)
    ensures c in GameconfFiles(fs, root) <==>
      root.Some? && root.value != "" && c.root == [root.value] && |c.rel| >= 1 && IsFile(Lookup(fs, LocalPath(c)))
  {
    if root.Some? && root.value != "" {
      var r := [root.value];
      if c.root == r {
        LookupAppend(fs, r, c.rel);
      }
      match Lookup(fs, r)
      case None =>
      case Some(File(_, _, _)) =>
      case Some(Dir(m, l)) =>
        LookupWellFormed(fs, r);
        PairIff(r, Walk(l), c);
        WalkIff(l, c.rel);
        if c.rel != [] {
          LookupAnyTime(m, l, c.rel);
        }
    }
  }

  /** `detect_sm_gameconf_dir`: the "major.minor" name, provided an entry
      of that name exists in the working directory. */
  function DetectSmGameconfDir(fs: Node, version: seq<int>): (dir: Option<string>)
    ensures dir.Some? <==> Lookup(fs, [DirName(version)]).Some?
    ensures dir.Some? ==> dir.value == DirName(version)
  {
    var name := DirName(version);
    if Lookup(fs, [name]).Some? then Some(name) else None
  }

  /** The candidates in the order the chained generators yield them. */
  function LocalCandidates(fs: Node, version: seq<int>): seq<Candidate>
  {
    GameconfFiles(fs, DetectSmGameconfDir(fs, version)) + GameconfFiles(fs, Some("thirdparty"))
  }

  /** All of `get_changed_gameconf`'s output, hashing every wanted file
      afresh. */
  function ChangedGameconf(fs: Node, version: seq<int>, submitted: map<string, string>, digest: Bytes -> string): (r: Result<seq<Change>, OsError>)
    ensures r.Success? ==> forall ch :: ch in r.value ==>
      ch.name in RemoteFiles(submitted) && RemoteFiles(submitted)[ch.name] != "" && RemoteFiles(submitted)[ch.name] != ch.info.md5sum
  {
    var d := Diff(fs, LocalCandidates(fs, version), RemoteFiles(submitted), digest);
    if d.Success? then DiffDiffers(fs, LocalCandidates(fs, version), RemoteFiles(submitted), digest); d
    else d
  }

  /** Every candidate is a regular file, so hashing never raises. */
  lemma ChangedNeverFails(fs: Node, version: seq<int>, submitted: map<string, string>, digest: Bytes -> string)
    requires WellFormed(fs)
    ensures ChangedGameconf(fs, version, submitted, digest).Success?
  {
    var cs := LocalCandidates(fs, version);
    var remote := RemoteFiles(submitted);
    DiffFails(fs, cs, remote, digest);
    forall c | c in cs
      ensures Md5sumStr(fs, LocalPath(c), digest).Success?
    {
      GameconfFilesIff(fs, DetectSmGameconfDir(fs, version), c);
      GameconfFilesIff(fs, Some("thirdparty"), c);
    }
  }

  /** Everything from the version directory comes before anything from
      `thirdparty`. */
  lemma ChangedOrder(fs: Node, version: seq<int>, submitted: map<string, string>, digest: Bytes -> string)
    ensures ChangedGameconf(fs, version, submitted, digest) ==
      Then(Diff(fs, GameconfFiles(fs, DetectSmGameconfDir(fs, version)), RemoteFiles(submitted), digest),
           Diff(fs, GameconfFiles(fs, Some("thirdparty")), RemoteFiles(submitted), digest))
  {
    DiffAppend(fs, GameconfFiles(fs, DetectSmGameconfDir(fs, version)), GameconfFiles(fs, Some("thirdparty")),
      RemoteFiles(submitted), digest);
  }

  /** Each change has a non-empty submitted hash that differs from the
      local hash, and comes from a file found under one of the two roots,
      named by its relative path and located at root/path. */
  lemma ChangedSound(fs: Node, version: seq<int>, submitted: map<string, string>, digest: Bytes -> string)
    requires WellFormed(fs)
    ensures ChangedGameconf(fs, version, submitted, digest).Success?
    ensures var remote := RemoteFiles(submitted);
      forall ch :: ch in ChangedGameconf(fs, version, submitted, digest).value ==>
        && ch.name in remote && remote[ch.name] != "" && remote[ch.name] != ch.info.md5sum
        && exists c :: c in LocalCandidates(fs, version) && Reports(fs, remote, digest, c, ch)
  {
    ChangedNeverFails(fs, version, submitted, digest);
    DiffSound(fs, LocalCandidates(fs, version), RemoteFiles(submitted), digest);
    DiffDiffers(fs, LocalCandidates(fs, version), RemoteFiles(submitted), digest);
  }

  /** Every walked file whose submitted hash is non-empty and differs from
      its local hash is reported. */
  lemma ChangedComplete(fs: Node, version: seq<int>, submitted: map<string, string>, digest: Bytes -> string, c: Candidate)
    requires WellFormed(fs)
    ensures ChangedGameconf(fs, version, submitted, digest).Success?
    ensures c in LocalCandidates(fs, version) && Differs(fs, RemoteFiles(submitted), digest, c) ==>
      Change(Key(c), Info(Md5sumStr(fs, LocalPath(c), digest).value, Location(c)))
        in ChangedGameconf(fs, version, submitted, digest).value
  {
    ChangedNeverFails(fs, version, submitted, digest);
    DiffComplete(fs, LocalCandidates(fs, version), RemoteFiles(submitted), digest);
  }

  /** A file that cannot be opened hashes to '' and, when its submitted hash
      is non-empty, is reported with md5sum ''. */
  lemma UnreadableReported(fs: Node, version: seq<int>, submitted: map<string, string>, digest: Bytes -> string, c: Candidate)
    requires WellFormed(fs)
    ensures ChangedGameconf(fs, version, submitted, digest).Success?
    ensures c in LocalCandidates(fs, version) && Wanted(RemoteFiles(submitted), c)
            && IsFile(Lookup(fs, LocalPath(c))) && !Lookup(fs, LocalPath(c)).value.readable ==>
            Change(Key(c), Info("", Location(c))) in ChangedGameconf(fs, version, submitted, digest).value
  {
    ChangedComplete(fs, version, submitted, digest, c);
  }

  /** The whole answer to a POST. */
  function PostAnswer(path: string, data: map<string, string>, fs: Node, digest: Bytes -> string): (reply: PostReply)
    ensures reply.RoutedToGet? <==> path != "/"
    ensures reply.Errors? ==> reply.error == ParseFailure || reply.error == UnsupportedVersion
    ensures reply.Changed? ==> PostPlan(data).Proceed?
  {
    if path != "/" then RoutedToGet
    else
      match PostPlan(data)
      case Reject(message) => Errors(message)
      case Crash => Aborted
      case Proceed(version, submitted) =>
        match ChangedGameconf(fs, version, submitted, digest)
        case Failure(_) => Aborted
        case Success(ys) => Changed(LastWins(ys))
  }

  /** On a well-formed tree an accepted request is never aborted by hashing,
      and every entry of its `Changed` answer has a non-empty submitted hash
      that differs from the local hash it reports. */
  lemma PostAnswerChanged(path: string, data: map<string, string>, fs: Node, digest: Bytes -> string)
    requires WellFormed(fs) && path == "/" && PostPlan(data).Proceed?
    ensures PostAnswer(path, data, fs, digest).Changed?
    ensures var changes := PostAnswer(path, data, fs, digest).changes;
            var remote := RemoteFiles(PostPlan(data).submitted);
            forall name :: name in changes ==> name in remote && remote[name] != "" && remote[name] != changes[name].md5sum
  {
    var plan := PostPlan(data);
    ChangedNeverFails(fs, plan.version, plan.submitted, digest);
    var ys := ChangedGameconf(fs, plan.version, plan.submitted, digest).value;
    var remote := RemoteFiles(plan.submitted);
    DiffDiffers(fs, LocalCandidates(fs, plan.version), remote, digest);
    LastWinsLatest(ys);
    forall name | name in LastWins(ys)
      ensures name in remote && remote[name] != "" && remote[name] != LastWins(ys)[name].md5sum
    {
      var i :| LastAt(ys, i, name) && LastWins(ys)[name] == ys[i].info;
      assert ys[i] in ys;
    }
  }

  /** `do_POST`, filling `changes` from the generator. */
  method DoPost(path: string, data: map<string, string>, fs: Node, digest: Bytes -> string) returns (reply: PostReply)
    ensures reply == PostAnswer(path, data, fs, digest)
  {
    if path != "/" {
      return RoutedToGet;
    }
    match PostPlan(data)
    case Reject(message) =>
      reply := Errors(message);
    case Crash =>
      reply := Aborted;
    case Proceed(version, submitted) =>
      var yielded := ChangedGameconf(fs, version, submitted, digest);
      if yielded.Failure? {
        reply := Aborted;
      } else {
        var changes := BuildChanges(yielded.value);
        reply := Changed(changes);
      }
  }

  /** The non-empty pieces of `parts`, in order. */
  function NonEmpty(parts: seq<string>): (r: seq<string>)
    ensures forall x :: x in r <==> x in parts && x != ""
  {
    if parts == [] then []
    else (if parts[0] == "" then [] else [parts[0]]) + NonEmpty(parts[1..])
  }

  /** The components of an absolute path string, as `os.path.exists` and
      `open` walk them from the file-system root. */
  function Components(s: string): (p: Path)
    ensures forall x :: x in p ==> x != "" && '/' !in x
  {
    NonEmpty(Split(s, '/'))
  }

  /** The final component of a path string: what follows the last '/'. */
  function Basename(s: string): (b: string)
    ensures '/' !in b
  {
    var parts := Split(s, '/');
    parts[|parts| - 1]
  }

  predicate AllDots(s: string) {
    forall i :: 0 <= i < |s| ==> s[i] == '.'
  }

  /** `os.path.splitext(...)[1] == '.txt'` for a final component: it ends in
      ".txt" and something other than leading dots comes before. */
  predicate SplitextTxt(b: string) {
    |b| >= 4 && b[|b| - 4..] == ".txt" && !AllDots(b[..|b| - 4])
  }

  /** `do_GET` on the resolved request path and the script's directory
      (`realpath` is not modelled): 403 unless the directory is a
      character-level prefix of the request path, then the file decision. */
  function DoGet(disk: Node, scriptDir: string, requestPath: string): (r: GetReply)
    ensures r == Forbidden <==> !(scriptDir <= requestPath)
    ensures r.Serve? ==> IsFile(Lookup(disk, Components(requestPath)))
  {
    CommonPrefixIsSecond(requestPath, scriptDir);
    if CommonPrefix(requestPath, scriptDir) != scriptDir then Forbidden
    else ServeFile(Lookup(disk, Components(requestPath)), SplitextTxt(Basename(requestPath)))
  }

  /** 403 exactly when the directory string does not prefix the request
      string; otherwise 404 unless it is a regular file with the `.txt`
      extension, whose bytes are served. */
  lemma DoGetSpec(disk: Node, scriptDir: string, requestPath: string)
    ensures StatusCode(DoGet(disk, scriptDir, requestPath)) == 403 <==> !(scriptDir <= requestPath)
    ensures StatusCode(DoGet(disk, scriptDir, requestPath)) == 404 <==>
      scriptDir <= requestPath && !(IsFile(Lookup(disk, Components(requestPath))) && SplitextTxt(Basename(requestPath)))
    ensures DoGet(disk, scriptDir, requestPath).Serve? ==>
      && scriptDir <= requestPath && IsFile(Lookup(disk, Components(requestPath)))
      && DoGet(disk, scriptDir, requestPath).content == Lookup(disk, Components(requestPath)).value.content
  {
    CommonPrefixIsSecond(requestPath, scriptDir);
  }

  /** A disk whose root holds only the directory `e` with the readable file
      `f` in it. */
  function SiblingDisk(e: string, f: string, content: Bytes): Node {
    Dir(0, Item(e, Dir(0, Item(f, File(0, content, true), End)), End))
  }

  /** The script directory `/d` and a request for `/e/f` where the name `e`
      extends `d`, as `/a` and `/ab/c.txt` do. */
  predicate SiblingShape(d: string, e: string, f: string) {
    d != "" && d <= e && d != e && '/' !in e && '/' !in f && SplitextTxt(f)
  }

  lemma SiblingComponents(d: string, e: string, f: string)
    requires SiblingShape(d, e, f)
    ensures Components("/" + d) == [d]
    ensures Components("/" + e + "/" + f) == [e, f]
    ensures Basename("/" + e + "/" + f) == f
  {
    assert '/' !in d by {
      forall i | 0 <= i < |d| ensures d[i] != '/' {
        assert d[i] == e[i];
      }
    }
    assert "/" + d == "" + ['/'] + d;
    SplitCons("", '/', d);
    SplitNoSep(d, '/');
    assert Split("/" + d, '/') == ["", d];
    assert NonEmpty(["", d]) == [] + NonEmpty([d]);
    assert NonEmpty([d]) == [d] + NonEmpty([]);
    var req := "/" + e + "/" + f;
    assert req == "" + ['/'] + (e + ['/'] + f);
    SplitCons("", '/', e + ['/'] + f);
    SplitCons(e, '/', f);
    SplitNoSep(f, '/');
    var parts := Split(req, '/');
    assert parts == ["", e, f];
    assert NonEmpty(parts) == [] + NonEmpty(parts[1..]);
    assert parts[1..] == [e, f] && parts[1..][1..] == [f];
    assert NonEmpty([e, f]) == [e] + NonEmpty([f]);
    assert NonEmpty([f]) == [f] + NonEmpty([]);
  }

  lemma SiblingLookup(e: string, f: string, content: Bytes)
    ensures Lookup(SiblingDisk(e, f, content), [e, f]) == Some(File(0, content, true))
  {
    var inner := Dir(0, Item(f, File(0, content, true), End));
    LookupStep(0, e, inner, End, [e, f]);
    assert [e, f][1..] == [f];
    LookupStep(0, f, File(0, content, true), End, [f]);
    assert [f][1..] == [];
  }

  /** The string-prefix check lets a request into a sibling directory
      through: when the script lives in `/d` and `e` extends the name `d`
      (`/a` and `/ab`), the file `/e/f` is served although its components do
      not start with the script directory's. */
  lemma SiblingDirectoryServed(d: string, e: string, f: string, content: Bytes)
    requires SiblingShape(d, e, f)
    ensures DoGet(SiblingDisk(e, f, content), "/" + d, "/" + e + "/" + f) == Serve(content)
    ensures !(Components("/" + d) <= Components("/" + e + "/" + f))
  {
    SiblingComponents(d, e, f);
    SiblingLookup(e, f, content);
    var req := "/" + e + "/" + f;
    assert "/" + d <= req by {
      assert req[..|d| + 1] == "/" + e[..|d|];
    }
    CommonPrefixIsSecond(req, "/" + d);
  }

  /** `do_GET` with the confinement it is evidently meant to have: the
      script directory's components must start the request's components,
      as the package revision's `is_path_under` checks. */
  function DoGetConfined(disk: Node, scriptDir: string, requestPath: string): (r: GetReply)
    ensures r.Serve? ==> IsFile(Lookup(disk, Components(requestPath))) && Components(scriptDir) <= Components(requestPath)
  {
    if !(Components(scriptDir) <= Components(requestPath)) then Forbidden
    else ServeFile(Lookup(disk, Components(requestPath)), SplitextTxt(Basename(requestPath)))
  }

  /** Whatever the confined handler serves is a regular file inside the
      script directory's subtree; outside the check it decides as `do_GET`
      does. */
  lemma DoGetConfinedInside(disk: Node, scriptDir: string, requestPath: string)
    ensures DoGetConfined(disk, scriptDir, requestPath) == Forbidden <==> !(Components(scriptDir) <= Components(requestPath))
    ensures DoGetConfined(disk, scriptDir, requestPath).Serve? ==>
      var dir := Components(scriptDir);
      var rest := Components(requestPath)[|dir|..];
      && Components(requestPath) == dir + rest
      && Lookup(disk, dir).Some? && IsFile(Lookup(Lookup(disk, dir).value, rest))
      && DoGetConfined(disk, scriptDir, requestPath).content == Lookup(Lookup(disk, dir).value, rest).value.content
    ensures Components(scriptDir) <= Components(requestPath) && scriptDir <= requestPath ==>
      DoGetConfined(disk, scriptDir, requestPath) == DoGet(disk, scriptDir, requestPath)
  {
    var dir := Components(scriptDir);
    var req := Components(requestPath);
    CommonPrefixIsSecond(requestPath, scriptDir);
    if dir <= req {
      var rest := req[|dir|..];
      assert req == dir + rest;
      LookupAppend(disk, dir, rest);
    }
  }

  /** The corrected handler refuses every such sibling request. */
  lemma SiblingDirectoryRefused(d: string, e: string, f: string, content: Bytes)
    requires SiblingShape(d, e, f)
    ensures DoGetConfined(SiblingDisk(e, f, content), "/" + d, "/" + e + "/" + f) == Forbidden
  {
    SiblingComponents(d, e, f);
  }
}
