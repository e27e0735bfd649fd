/** The change-set computation both revisions of `get_changed_gameconf`
    perform, and the `changes` dictionary `do_POST` builds from it. */
module ChangeSet {
  import opened Wrappers
  import opened Text
  import opened FileTree

  /** A local file offered for comparison: the gameconf directory it was
      found under and its path relative to that directory. */
  datatype Candidate = Candidate(root: Path, rel: Path)

  datatype Info = Info(md5sum: string, location: string)

  /** One yielded change: the name the client knows the file by, the local
      hash and where to fetch the file. */
  datatype Change = Change(name: string, info: Info)

  /** The name the submitted map is searched under: the relative path in
      posix form. */
  function Key(c: Candidate): string { Join(c.rel, "/") }

  function LocalPath(c: Candidate): Path { c.root + c.rel }

  function Location(c: Candidate): string { Join(c.root + c.rel, "/") }

  /** `remote_files.get(key)` is neither missing nor empty. */
  predicate Wanted(remote: map<string, string>, c: Candidate) {
    Key(c) in remote && remote[Key(c)] != ""
  }

  /** Candidate `c` gives change `ch`: its submitted hash is non-empty and
      differs from the local hash that `ch` carries, under `c`'s name and
      location. */
  predicate Reports(fs: Node, remote: map<string, string>, digest: Bytes -> string, c: Candidate, ch: Change) {
    && Wanted(remote, c)
    && Md5sumStr(fs, LocalPath(c), digest) == Success(ch.info.md5sum)
    && ch.info.md5sum != remote[Key(c)]
    && ch == Change(Key(c), Info(ch.info.md5sum, Location(c)))
  }

  /** The generator loop of `get_changed_gameconf`, run to the end: skip
      candidates whose submitted hash is missing or empty, hash the rest,
      skip equal hashes, yield the others in order. An error raised while
      hashing ends the whole computation. */
  function Diff(fs: Node, cs: seq<Candidate>, remote: map<string, string>, digest: Bytes -> string): (r: Result<seq<Change>, OsError>)
    ensures r.Success? ==> |r.value| <= |cs|
    decreases |cs|
  {
    if cs == [] then Success([])
    else
      var c := cs[0];
      if !Wanted(remote, c) then Diff(fs, cs[1..], remote, digest)
      else
        match Md5sumStr(fs, LocalPath(c), digest)
        case Failure(e) => Failure(e)
        case Success(h) =>
          var rest := Diff(fs, cs[1..], remote, digest);
          if h == remote[Key(c)] then rest
          else Prepend([Change(Key(c), Info(h, Location(c)))], rest)
  }

  /** Changes already yielded, followed by the outcome of the rest. */
  function Prepend(done: seq<Change>, rest: Result<seq<Change>, OsError>): Result<seq<Change>, OsError>
  {
    match rest
    case Success(more) => Success(done + more)
    case Failure(e) => Failure(e)
  }

  /** Every yielded change comes from a candidate whose submitted hash is
      non-empty and differs from the local one. */
  lemma {:induction false} DiffSound(fs: Node, cs: seq<Candidate>, remote: map<string, string>, digest: Bytes -> string)
    requires Diff(fs, cs, remote, digest).Success?
    ensures forall ch :: ch in Diff(fs, cs, remote, digest).value ==>
      exists c :: c in cs && Reports(fs, remote, digest, c, ch)
    decreases |cs|
  {
    if cs != [] {
      DiffSound(fs, cs[1..], remote, digest);
      forall ch | ch in Diff(fs, cs, remote, digest).value
        ensures exists c :: c in cs && Reports(fs, remote, digest, c, ch)
      {
        if ch !in Diff(fs, cs[1..], remote, digest).value {
          assert Reports(fs, remote, digest, cs[0], ch);
        } else {
          var c :| c in cs[1..] && Reports(fs, remote, digest, c, ch);
          assert c in cs;
        }
      }
    }
  }

  /** Every yielded change carries a name with a non-empty submitted hash
      that differs from the local hash it reports. */
  lemma DiffDiffers(fs: Node, cs: seq<Candidate>, remote: map<string, string>, digest: Bytes -> string)
    requires Diff(fs, cs, remote, digest).Success?
    ensures forall ch :: ch in Diff(fs, cs, remote, digest).value ==>
      ch.name in remote && remote[ch.name] != "" && remote[ch.name] != ch.info.md5sum
  {
    DiffSound(fs, cs, remote, digest);
    forall ch | ch in Diff(fs, cs, remote, digest).value
      ensures ch.name in remote && remote[ch.name] != "" && remote[ch.name] != ch.info.md5sum
    {
      var c :| c in cs && Reports(fs, remote, digest, c, ch);
    }
  }

  /** Candidate `c` has a non-empty submitted hash and a local hash that
      differs from it. */
  predicate Differs(fs: Node, remote: map<string, string>, digest: Bytes -> string, c: Candidate) {
    && Wanted(remote, c)
    && Md5sumStr(fs, LocalPath(c), digest).Success?
    && Md5sumStr(fs, LocalPath(c), digest).value != remote[Key(c)]
  }

  /** Every candidate with a non-empty submitted hash that differs from its
      local hash is yielded. */
  lemma {:induction false} DiffComplete(fs: Node, cs: seq<Candidate>, remote: map<string, string>, digest: Bytes -> string)
    requires Diff(fs, cs, remote, digest).Success?
    ensures forall c :: c in cs && Differs(fs, remote, digest, c) ==>
      Change(Key(c), Info(Md5sumStr(fs, LocalPath(c), digest).value, Location(c))) in Diff(fs, cs, remote, digest).value
    decreases |cs|
  {
    if cs != [] {
      var c0 := cs[0];
      if Wanted(remote, c0) {
        assert Md5sumStr(fs, LocalPath(c0), digest).Success?;
      }
      DiffComplete(fs, cs[1..], remote, digest);
      forall c | c in cs && c != c0
        ensures c in cs[1..]
      {
      }
    }
  }

  /** The change-set fails exactly when some wanted candidate cannot be
      hashed (a missing file or a directory). */
  lemma {:induction false} DiffFails(fs: Node, cs: seq<Candidate>, remote: map<string, string>, digest: Bytes -> string)
    ensures Diff(fs, cs, remote, digest).Failure? <==>
      exists c :: c in cs && Wanted(remote, c) && Md5sumStr(fs, LocalPath(c), digest).Failure?
    decreases |cs|
  {
    if cs != [] {
      DiffFails(fs, cs[1..], remote, digest);
      if exists c :: c in cs[1..] && Wanted(remote, c) && Md5sumStr(fs, LocalPath(c), digest).Failure? {
        var c :| c in cs[1..] && Wanted(remote, c) && Md5sumStr(fs, LocalPath(c), digest).Failure?;
        assert c in cs;
      }
      forall c | c in cs && c != cs[0]
        ensures c in cs[1..]
      {
      }
    }
  }

  /** The outcome of running two candidate lists one after the other. */
  function Then(first: Result<seq<Change>, OsError>, second: Result<seq<Change>, OsError>): Result<seq<Change>, OsError>
  {
    match first
    case Failure(e) => Failure(e)
    case Success(xs) => Prepend(xs, second)
  }

  lemma ThenPrepend(x: seq<Change>, r1: Result<seq<Change>, OsError>, r2: Result<seq<Change>, OsError>)
    ensures Then(Prepend(x, r1), r2) == Prepend(x, Then(r1, r2))
  {
    match r1
    case Failure(_) =>
    case Success(xs) =>
      match r2
      case Failure(_) =>
      case Success(ys) => assert (x + xs) + ys == x + (xs + ys);
  }

  /** Running over `a + b` yields `a`'s changes first, then `b`'s. */
  lemma {:induction false} DiffAppend(fs: Node, a: seq<Candidate>, b: seq<Candidate>, remote: map<string, string>, digest: Bytes -> string)
    ensures Diff(fs, a + b, remote, digest) == Then(Diff(fs, a, remote, digest), Diff(fs, b, remote, digest))
    decreases |a|
  {
    if a == [] {
      assert a + b == b;
      match Diff(fs, b, remote, digest)
      case Success(ys) => assert [] + ys == ys;
      case Failure(_) =>
    } else {
      assert (a + b)[0] == a[0] && (a + b)[1..] == a[1..] + b;
      DiffAppend(fs, a[1..], b, remote, digest);
      var c := a[0];
      if Wanted(remote, c) && Md5sumStr(fs, LocalPath(c), digest).Success?
        && Md5sumStr(fs, LocalPath(c), digest).value != remote[Key(c)]
      {
        var ch := Change(Key(c), Info(Md5sumStr(fs, LocalPath(c), digest).value, Location(c)));
        ThenPrepend([ch], Diff(fs, a[1..], remote, digest), Diff(fs, b, remote, digest));
      }
    }
  }

  /** The `changes` dictionary after storing the yielded changes in order. */
  function LastWins(ys: seq<Change>): (m: map<string, Info>)
    ensures |m| <= |ys|
    ensures m == map[] <==> ys == []
    decreases |ys|
  {
    if ys == [] then map[]
    else LastWins(ys[..|ys| - 1])[ys[|ys| - 1].name := ys[|ys| - 1].info]
  }

  /** The last change with `name` is at index `i`. */
  predicate LastAt(ys: seq<Change>, i: int, name: string) {
    0 <= i < |ys| && ys[i].name == name && forall j :: i < j < |ys| ==> ys[j].name != name
  }

  /** The dictionary holds exactly the yielded names. */
  lemma {:induction false} LastWinsNames(ys: seq<Change>)
    ensures forall name :: name in LastWins(ys) <==> exists i :: 0 <= i < |ys| && ys[i].name == name
    decreases |ys|
  {
    if ys != [] {
      var init := ys[..|ys| - 1];
      LastWinsNames(init);
      assert LastWins(ys) == LastWins(init)[ys[|ys| - 1].name := ys[|ys| - 1].info];
      forall name | name !in LastWins(ys)
        ensures forall i :: 0 <= i < |ys| ==> ys[i].name != name
      {
        assert name !in LastWins(init);
        forall i | 0 <= i < |ys| ensures ys[i].name != name {
          if i < |ys| - 1 { assert init[i] == ys[i]; }
        }
      }
      forall name | name in LastWins(ys) && name != ys[|ys| - 1].name
        ensures exists i :: 0 <= i < |ys| && ys[i].name == name
      {
        assert name in LastWins(init);
        var i :| 0 <= i < |init| && init[i].name == name;
        assert ys[i] == init[i];
      }
    }
  }

  /** A later yielded entry for a name replaces an earlier one: each name
      holds the info of its last entry. */
  lemma {:induction false} LastWinsLatest(ys: seq<Change>)
    ensures forall name :: name in LastWins(ys) ==> exists i :: LastAt(ys, i, name) && LastWins(ys)[name] == ys[i].info
    decreases |ys|
  {
    if ys != [] {
      var init := ys[..|ys| - 1];
      var last := ys[|ys| - 1];
      LastWinsLatest(init);
      assert LastWins(ys) == LastWins(init)[last.name := last.info];
      forall name | name in LastWins(ys)
        ensures exists i :: LastAt(ys, i, name) && LastWins(ys)[name] == ys[i].info
      {
        if name == last.name {
          assert LastAt(ys, |ys| - 1, name);
        } else {
          assert name in LastWins(init);
          var i :| LastAt(init, i, name) && LastWins(init)[name] == init[i].info;
          assert ys[i] == init[i];
          assert LastAt(ys, i, name);
        }
      }
    }
  }

  /** The `for name, ... in get_changed_gameconf(...)` loop of `do_POST`. */
  method BuildChanges(ys: seq<Change>) returns (changes: map<string, Info>)
    ensures changes == LastWins(ys)
  {
    changes := map[];
    var i := 0;
    while i < |ys|
      invariant 0 <= i <= |ys|
      invariant changes == LastWins(ys[..i])
    {
      assert ys[..i + 1][..i] == ys[..i];
      changes := changes[ys[i].name := ys[i].info];
      i := i + 1;
    }
    assert ys[..|ys|] == ys;
  }
}
