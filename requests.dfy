/** The request decisions both revisions of the handler share: the dotted
    version and its supported range, the version directory name, collecting
    `file_{n}_name` / `file_{n}_md5` from the submitted fields, and stripping
    the `gamedata` prefix from submitted names. */
module Requests {
  import opened Wrappers
  import opened Text

  const ParseFailure := "Failed to parse request."
  const UnsupportedVersion := "Unsupported SourceMod version. Please upgrade."

  /** `tuple(map(int, s.split('.')))`, or None where `int` raises. */
  function ParseVersion(s: string): (r: Option<seq<int>>)
    ensures r.Some? ==> |r.value| == |Split(s, '.')| >= 1
    ensures r.Some? ==> forall i :: 0 <= i < |r.value| ==> ParseInt(Split(s, '.')[i]) == Some(r.value[i])
  {
    ParseAll(Split(s, '.'))
  }

  function ParseAll(parts: seq<string>): (r: Option<seq<int>>)
    ensures r.Some? ==> |r.value| == |parts|
    ensures r.Some? ==> forall i :: 0 <= i < |parts| ==> ParseInt(parts[i]) == Some(r.value[i])
    ensures r.None? ==> exists i :: 0 <= i < |parts| && ParseInt(parts[i]).None?
    decreases |parts|
  {
    if parts == [] then Some([])
    else
      var head := ParseInt(parts[0]);
      var tail := ParseAll(parts[1..]);
      if head.Some? && tail.Some? then Some([head.value] + tail.value) else None
  }

  /** Python's `a < b` on tuples of integers: lexicographic, and a proper
      prefix is smaller. */
  predicate LexLess(a: seq<int>, b: seq<int>)
    ensures LexLess(a, b) ==> a != b
    decreases |a|
  {
    if b == [] then false
    else if a == [] then true
    else a[0] < b[0] || (a[0] == b[0] && LexLess(a[1..], b[1..]))
  }

  /** The gate of `do_POST`: refused when `v < (1, 6)` or `v >= (1, 12)`. */
  predicate Supported(v: seq<int>) {
    !(LexLess(v, [1, 6]) || !LexLess(v, [1, 12]))
  }

  /** The supported versions are exactly those with major 1 and minor in
      6..11, whatever follows. */
  lemma SupportedIff(v: seq<int>)
    ensures Supported(v) <==> |v| >= 2 && v[0] == 1 && 6 <= v[1] < 12
  {
    assert [1, 6][1..] == [6] && [1, 12][1..] == [12];
    if v == [] {
      assert LexLess(v, [1, 6]);
    } else if v[0] != 1 {
      assert LexLess(v, [1, 6]) <==> v[0] < 1;
      assert LexLess(v, [1, 12]) <==> v[0] < 1;
    } else if |v| == 1 {
      assert LexLess(v[1..], [6]);
      assert LexLess(v, [1, 6]);
    } else {
      var w := v[1..];
      assert w[0] == v[1] && |w| >= 1;
      assert LexLess(w, [6]) <==> v[1] < 6;
      assert LexLess(w, [12]) <==> v[1] < 12;
    }
  }

  /** `sm_gameconf_dir` / the name computed in `detect_sm_gameconf_dir`:
      the first two version components joined by '.'. */
  function DirName(v: seq<int>): (name: string)
    ensures |v| >= 2 ==> name == IntToString(v[0]) + "." + IntToString(v[1])
  {
    var parts := IntStrings(v[..if |v| < 2 then |v| else 2]);
    if |v| >= 2 then
      assert parts == [IntToString(v[0]), IntToString(v[1])];
      assert parts[1..] == [IntToString(v[1])];
      assert Join(parts, ".") == parts[0] + "." + Join(parts[1..], ".");
      Join(parts, ".")
    else Join(parts, ".")
  }

  /** `map(str, v)`. */
  function IntStrings(v: seq<int>): seq<string>
  {
    seq(|v|, i requires 0 <= i < |v| => IntToString(v[i]))
  }

  /** The directory name is "major.minor", and reading it back as a version
      gives the first two components. */
  lemma DirNameParses(v: seq<int>)
    requires |v| >= 2
    ensures DirName(v) == IntToString(v[0]) + "." + IntToString(v[1])
    ensures ParseVersion(DirName(v)) == Some(v[..2])
  {
    var parts := IntStrings(v[..2]);
    assert parts == [IntToString(v[0]), IntToString(v[1])];
    assert Join(parts, ".") == IntToString(v[0]) + "." + IntToString(v[1]);
    SplitJoin(parts, '.');
    ParseIntToString(v[0]);
    ParseIntToString(v[1]);
    var x := parts[1..];
    var e: seq<int> := [];
    assert x == [IntToString(v[1])] && x[1..] == [];
    assert ParseAll(x) == if ParseInt(x[0]).Some? && ParseAll(x[1..]).Some?
      then Some([ParseInt(x[0]).value] + ParseAll(x[1..]).value) else None;
    assert ParseAll(x) == Some([v[1]] + e);
    assert [v[1]] + e == [v[1]];
    assert ParseAll(parts) == if ParseInt(parts[0]).Some? && ParseAll(x).Some?
      then Some([ParseInt(parts[0]).value] + ParseAll(x).value) else None;
    assert [v[0]] + [v[1]] == [v[0], v[1]];
    assert ParseAll(parts) == Some([v[0], v[1]]);
    assert v[..2] == [v[0], v[1]];
  }

  function NameField(n: nat): string { "file_" + NatToString(n) + "_name" }

  function Md5Field(n: nat): string { "file_" + NatToString(n) + "_md5" }

  /** `{ data[f'file_{n}_name']: data[f'file_{n}_md5'] for n in range(count) }`,
      or None where a field is missing (the comprehension raises KeyError). */
  function SubmittedFiles(data: map<string, string>, count: int): (r: Option<map<string, string>>)
    ensures r.Some? <==> forall n :: 0 <= n < count ==> HasIndex(data, n)
    ensures count <= 0 ==> r == Some(map[])
  {
    if count <= 0 then Some(map[])
    else
      CollectDefined(data, count);
      Collect(data, count)
  }

  /** The comprehension over the indices `0 .. k-1`. */
  function Collect(data: map<string, string>, k: nat): Option<map<string, string>>
    decreases k
  {
    if k == 0 then Some(map[])
    else
      match Collect(data, k - 1)
      case None => None
      case Some(m) =>
        if NameField(k - 1) in data && Md5Field(k - 1) in data
        then Some(m[data[NameField(k - 1)] := data[Md5Field(k - 1)]])
        else None
  }

  predicate HasIndex(data: map<string, string>, n: nat) {
    NameField(n) in data && Md5Field(n) in data
  }

  /** Index `n` supplies `name`, and no later index below `k` supplies it. */
  predicate LastIndexFor(data: map<string, string>, k: nat, n: nat, name: string)
  {
    && n < k && HasIndex(data, n) && data[NameField(n)] == name
    && forall j :: n < j < k && HasIndex(data, j) ==> data[NameField(j)] != name
  }

  /** The collected map exists exactly when every index has both fields. */
  lemma {:induction false} CollectDefined(data: map<string, string>, k: nat)
    ensures Collect(data, k).Some? <==> forall n :: 0 <= n < k ==> HasIndex(data, n)
    decreases k
  {
    if k > 0 {
      CollectDefined(data, k - 1);
      if forall n :: 0 <= n < k ==> HasIndex(data, n) {
        assert HasIndex(data, k - 1);
      }
    }
  }

  /** Its names are exactly the names submitted at some index. */
  lemma {:induction false} CollectNames(data: map<string, string>, k: nat)
    requires Collect(data, k).Some?
    ensures forall name :: name in Collect(data, k).value <==>
      exists n :: 0 <= n < k && HasIndex(data, n) && data[NameField(n)] == name
    decreases k
  {
    if k > 0 {
      CollectNames(data, k - 1);
      var m := Collect(data, k - 1).value;
      assert Collect(data, k).value == m[data[NameField(k - 1)] := data[Md5Field(k - 1)]];
      forall name ensures name in Collect(data, k).value <==>
        exists n :: 0 <= n < k && HasIndex(data, n) && data[NameField(n)] == name
      {
        if name in Collect(data, k).value && name != data[NameField(k - 1)] {
          assert name in m;
          var n :| 0 <= n < k - 1 && HasIndex(data, n) && data[NameField(n)] == name;
          assert 0 <= n < k;
        }
      }
    }
  }

  /** An index stays the last one for a name when the next index supplies
      a different name. */
  lemma LastIndexExtend(data: map<string, string>, k: nat, n: nat, name: string)
    requires k > 0 && LastIndexFor(data, k - 1, n, name)
    requires HasIndex(data, k - 1) && data[NameField(k - 1)] != name
    ensures LastIndexFor(data, k, n, name)
  {
  }

  /** Each name carries the hash of the LAST index that submitted it: a
      later index with the same name overrides an earlier one. */
  lemma {:induction false} CollectLastWins(data: map<string, string>, k: nat)
    requires Collect(data, k).Some?
    ensures forall name :: name in Collect(data, k).value ==>
      exists n :: LastIndexFor(data, k, n, name) && Collect(data, k).value[name] == data[Md5Field(n)]
    decreases k
  {
    if k > 0 {
      CollectLastWins(data, k - 1);
      var m := Collect(data, k - 1).value;
      var last := data[NameField(k - 1)];
      var m' := m[last := data[Md5Field(k - 1)]];
      assert Collect(data, k) == Some(m');
      forall name | name in m'
        ensures exists n :: LastIndexFor(data, k, n, name) && m'[name] == data[Md5Field(n)]
      {
        if name == last {
          assert LastIndexFor(data, k, k - 1, name);
        } else {
          var n :| LastIndexFor(data, k - 1, n, name) && m[name] == data[Md5Field(n)];
          LastIndexExtend(data, k, n, name);
        }
      }
    }
  }

  /** `os.path.relpath(f, 'gamedata')` for a name below `gamedata/`: the
      rest of the name. Any other name would give a key beginning with
      "..", which no file below a gameconf directory has, so it is dropped. */
  function StripGamedata(f: string): (r: Option<string>)
    ensures r.Some? ==> "gamedata/" + r.value == f
    ensures r.None? ==> !("gamedata/" <= f)
  {
    if |f| >= 9 && f[..9] == "gamedata/" then Some(f[9..]) else None
  }

  /** `remote_files`: the submitted names with the `gamedata/` prefix taken
      off, each with its submitted hash. */
  function RemoteFiles(submitted: map<string, string>): map<string, string>
  {
    map k | k in (set f | f in submitted && StripGamedata(f).Some? :: f[9..]) && "gamedata/" + k in submitted
      :: submitted["gamedata/" + k]
  }

  /** Every submitted `gamedata/` name appears stripped with its hash, and
      every remote name is a submitted one with the prefix taken off. */
  lemma RemoteFilesSpec(submitted: map<string, string>)
    ensures forall f :: f in submitted && StripGamedata(f).Some? ==>
      StripGamedata(f).value in RemoteFiles(submitted) && RemoteFiles(submitted)[StripGamedata(f).value] == submitted[f]
    ensures forall k :: k in RemoteFiles(submitted) ==> "gamedata/" + k in submitted && RemoteFiles(submitted)[k] == submitted["gamedata/" + k]
  {
    assert forall f :: f in submitted && StripGamedata(f).Some? ==> "gamedata/" + f[9..] == f;
  }

  /** What `do_POST` does for a request to '/' before any file is hashed. */
  datatype Plan =
    | Reject(message: string)
    | Crash
    | Proceed(version: seq<int>, submitted: map<string, string>)

  /** Empty form data is refused; a missing or malformed `version` raises; a
      version outside [1.6, 1.12) is refused; then a missing or malformed
      `files` count, or a missing field for a declared index, raises; and an
      empty submitted name raises once the names are made relative to
      `gamedata`, before any file is hashed. */
  function PostPlan(data: map<string, string>): (plan: Plan)
    ensures plan == Reject(ParseFailure) <==> data == map[]
    ensures plan.Proceed? ==>
      && "version" in data && ParseVersion(data["version"]) == Some(plan.version) && Supported(plan.version)
      && "files" in data && ParseInt(data["files"]).Some?
      && (forall n :: 0 <= n < ParseInt(data["files"]).value ==> HasIndex(data, n))
      && "" !in plan.submitted
    ensures
      && data != map[] && "version" in data && ParseVersion(data["version"]).Some?
      && Supported(ParseVersion(data["version"]).value)
      && "files" in data && ParseInt(data["files"]).Some?
      && (forall n :: 0 <= n < ParseInt(data["files"]).value ==> HasIndex(data, n))
      && "" !in SubmittedFiles(data, ParseInt(data["files"]).value).value
      ==> plan.Proceed?
  {
    if data == map[] then Reject(ParseFailure)
    else if "version" !in data then Crash
    else
      match ParseVersion(data["version"])
      case None => Crash
      case Some(v) =>
        if !Supported(v) then Reject(UnsupportedVersion)
        else if "files" !in data then Crash
        else
          match ParseInt(data["files"])
          case None => Crash
          case Some(count) =>
            match SubmittedFiles(data, count)
            case None => Crash
            case Some(s) => if "" in s then Crash else Proceed(v, s)
  }

  /** The three outcomes of the plan, stated against the fields. */
  lemma PostPlanSpec(data: map<string, string>)
    ensures PostPlan(data) == Reject(ParseFailure) <==> data == map[]
    ensures PostPlan(data) == Reject(UnsupportedVersion) <==>
      data != map[] && "version" in data && ParseVersion(data["version"]).Some?
      && !(|ParseVersion(data["version"]).value| >= 2 && ParseVersion(data["version"]).value[0] == 1
           && 6 <= ParseVersion(data["version"]).value[1] < 12)
    ensures PostPlan(data).Proceed? ==>
      && "version" in data && ParseVersion(data["version"]) == Some(PostPlan(data).version)
      && Supported(PostPlan(data).version)
      && "files" in data && ParseInt(data["files"]).Some?
      && SubmittedFiles(data, ParseInt(data["files"]).value) == Some(PostPlan(data).submitted)
      && "" !in PostPlan(data).submitted
    ensures
      && data != map[] && "version" in data && ParseVersion(data["version"]).Some?
      && Supported(ParseVersion(data["version"]).value)
      && "files" in data && ParseInt(data["files"]).Some?
      && SubmittedFiles(data, ParseInt(data["files"]).value).Some?
      && "" !in SubmittedFiles(data, ParseInt(data["files"]).value).value
      ==> PostPlan(data).Proceed?
  {
    if data != map[] && "version" in data && ParseVersion(data["version"]).Some? {
      SupportedIff(ParseVersion(data["version"]).value);
    }
  }
}
