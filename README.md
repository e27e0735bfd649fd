# py-gameconf-server, modelled in Dafny

py-gameconf-server is the update server that SourceMod installations ask
for newer "gameconf" files. A client POSTs its version and a numbered list
of `gamedata/...` file names, each with the MD5 it holds. The server
compares these with the files in its own gameconf directories. Its answer
is a `Changed` document: every local file whose hash differs from a
non-empty submitted one, with the local hash and a location to fetch it
from. A GET at such a location streams the file back. The server must
refuse anything outside its directory and anything that is not a `.txt`
file.

The repository holds three revisions of this core, and each is modelled
in its own form:

- `gameconf_server.py`, the single-script server (module `ScriptServer`).
  - It enumerates files with a full `os.walk` of the version directory
    (only when that directory exists) and of `thirdparty`.
  - On every request it hashes afresh each enumerated file for which a
    non-empty hash was submitted.
  - It confines GETs with a character-wise `os.path.commonprefix` against
    the script's directory.
- `gameconf_server/__init__.py`, the package server (module
  `PackageServer`, with the cache in module `ModTimeCache`).
  - It enumerates two levels only. Top-level files are offered, and so is
    every entry directly inside a top-level subdirectory, directories
    included. When a non-empty hash was submitted under such a
    directory's name, hashing it raises and the request aborts.
  - It caches hashes in a `FileModTimeCache`, which trusts a stored hash
    only while the file's mtime equals the one recorded when the hash was
    stored.
  - It confines GETs with a component-wise prefix test against the working
    directory. `is_path_under` returns true when the path is OUTSIDE the
    root, despite its name; the handler relies on that.
- `gameconf_server/server.py`, a `GameConfigDirectory` class (module
  `HashDirectory`). It keeps a `(last_mtime, md5sum)` cache and recomputes
  an entry only when the mtime has advanced, or when the entry holds no
  hash.

Module `Requests` holds the request decisions the two handlers share:
- the empty-form check;
- `tuple(map(int, version.split('.')))` and the version gate
  `[1.6, 1.12)`;
- the `file_{n}_name` / `file_{n}_md5` comprehension;
- the `gamedata/` strip.

Module `ChangeSet` holds the generator loop both revisions share, run to
the end, and the `changes` dictionary built from it. Module `Replies`
holds the possible answers and the final file-serving decision. `FileTree`
is the disk: a tree of directories and files, each with an integer mtime,
its bytes and whether `open` is permitted. `Text` holds the string helpers
from Python's built-ins.

Three things are parameters:
- the MD5 function, as `digest: Bytes -> string`;
- the disk, as a `Node`;
- the form fields, already decoded by the transport, as a
  `map<string, string>`.

An exception that escapes `do_POST` is the `Aborted` reply. The 200
headers have already gone out by then, because both revisions send them
before the form is checked. A GET whose file `open` refuses is
`ServeAborted`, again after its 200 headers.

Behaviour of the code that the model keeps:
- A missing or non-numeric `version` or `files` field raises, and so does
  a missing `file_{n}_*` field for a declared index, and an empty
  submitted name, which `os.path.relpath` refuses. The reply is
  `Aborted`, and nothing has been hashed.
- Matches from both the version directory and `thirdparty` are yielded,
  in that order. Because `changes[name]` is assigned for each one, the
  last entry for a name wins (`ChangeSet.LastWinsLatest`,
  `PackageServer.ChangesOrder`).
- A path outside the root gets 403. A missing file or a non-`.txt` path
  gets 404.
- The package cache is an LRU cache bounded at 1024 entries. It treats
  any change of mtime as stale, in either direction.
  `GameConfigDirectory` treats only a newer mtime as stale.

## Model

| member | source | states |
|---|---|---|
| FileTree.Md5sumStr | gameconf_server.py:19-29 | Succeeds exactly for a regular file. The result is the digest of the file's bytes, or '' when `open` raises PermissionError. A missing path raises FileNotFound and a directory raises IsADirectory, because only PermissionError is caught. The same function is the body of the cached `get_md5sum_str` in `__init__.py:45-54`. |
| Text.Split | gameconf_server/__init__.py:156 | `str.split`: at least one part, no part contains the separator, and joining the parts gives back the string. |
| Text.Join | gameconf_server/__init__.py:73 | `sep.join(parts)` starts with the first part, followed by the separator when more parts follow. `Split` joins back to its input. |
| Text.ParseInt | gameconf_server/__init__.py:156 | `int` succeeds only on a non-empty string. `ParseIntToString` shows it reads `str(n)` back as `n`. |
| Text.IntToString | gameconf_server/__init__.py:73 | `str(n)` contains no '.' and no '/', so "major.minor" splits back into its two numbers and names one directory. |
| Text.CommonPrefix | gameconf_server/__init__.py:105 | `os.path.commonprefix`: a prefix of both sequences, and the longest one, since the next elements differ or one sequence ends. |
| Text.ParseIntToString | gameconf_server/__init__.py:73 | `int(str(n)) == n`, so the text `str` makes of a version number reads back as that number. |
| Text.CommonPrefixIsSecond | gameconf_server/__init__.py:105 | `os.path.commonprefix` of `a` and `b` is `b` exactly when `b` is a prefix of `a`. |
| HashDirectory.Stale | gameconf_server/server.py:32-40 | A path with no entry, which gets the `(0, None)` default, is always stale. |
| HashDirectory.FileHashImpl | gameconf_server/server.py:16-27 | None for a missing path or an unreadable file. The digest of the bytes for a readable file. An uncaught error for a directory. |
| HashDirectory.Refresh | gameconf_server/server.py:29-44 | A missing file gives None and leaves the cache unchanged. A stale entry (newer mtime, or no hash) is recomputed and stored with the current mtime, unless hashing raises. A fresh entry with a hash is returned without reading the file. No other entry changes. For an existing file, the answer is the hash now cached for it. |
| HashDirectory.RefreshIdempotent | gameconf_server/server.py:40-44 | Asking twice about an unchanged disk gives the same answer. When the first call produced a hash, the second reads nothing and changes nothing. |
| HashDirectory.UnreadableRetried | gameconf_server/server.py:25-41 | When an unreadable file is read, it yields None and the entry stores None with the mtime. The next call reads the file again. |
| HashDirectory.GameConfigDirectory.constructor | gameconf_server/server.py:7-11 | The directory keeps its path and starts with an empty `md5sums`. |
| HashDirectory.GameConfigDirectory.ValidDirectory | gameconf_server/server.py:13-14 | Every request may use the directory. |
| HashDirectory.GameConfigDirectory.GetFileHash | gameconf_server/server.py:29-44 | The answer, the new `md5sums` and whether the file was read are exactly `Refresh` of the old cache. |
| ModTimeCache.FileModTimeCache.constructor | gameconf_server/__init__.py:26-28 | Starts with no entries and no recorded mtimes, which satisfies the invariant that both have the same keys. |
| ModTimeCache.FileModTimeCache.GetItem | gameconf_server/__init__.py:30-33 | A missing file lets `os.stat`'s error through. A hit happens only when the recorded mtime equals the current one. Otherwise KeyError is raised. |
| ModTimeCache.FileModTimeCache.SetItem | gameconf_server/__init__.py:35-37 | Stores the value and records the file's current mtime. Nothing else changes, and the key invariant holds. |
| ModTimeCache.FileModTimeCache.PopItem | gameconf_server/__init__.py:39-42 | Removes one stored entry and its mtime record, and returns that entry. An empty cache raises KeyError (None). The key invariant holds. |
| ModTimeCache.FileModTimeCache.CachedMd5sum | gameconf_server/__init__.py:44-54 | A hit returns the stored hash and changes nothing. A miss hashes the file and stores the result with the mtime. A missing file raises and changes nothing. When every hit matches the file's current hash, that stays true and the answer equals a fresh `Md5sumStr`. |
| PackageServer.IterDirFiles | gameconf_server/__init__.py:59-61 | Nothing is yielded unless the root is a directory. |
| PackageServer.TopLevel | gameconf_server/__init__.py:63-67 | Every path yielded for a listing is one or two components longer than the root. That the root is its prefix is `PackageServer.TopLevelBounds`. |
| PackageServer.Here | gameconf_server/__init__.py:64-67 | One top-level entry contributes only paths one or two components longer than the root. |
| PackageServer.Entries | gameconf_server/__init__.py:65 | Every entry of a subdirectory is yielded one component longer than the subdirectory. That the subdirectory is its prefix is `PackageServer.EntriesBounds`. |
| PackageServer.IterDirFilesBounds | gameconf_server/__init__.py:59-67 | Every yielded path lies one or two levels below the root. |
| PackageServer.TopLevelBounds | gameconf_server/__init__.py:63-67 | Every path yielded for a listing starts with the root and is one or two components longer. |
| PackageServer.EntriesBounds | gameconf_server/__init__.py:65 | Every entry of a subdirectory starts with the subdirectory and is one component longer. |
| PackageServer.TopLevelIff | gameconf_server/__init__.py:63-67 | A path is yielded from a listing exactly when it names a top-level file, or any entry directly inside a top-level directory. |
| PackageServer.IterDirFilesFile | gameconf_server/__init__.py:59-67 | `root/a` is yielded exactly when the root is a directory and `a` is a file in it. |
| PackageServer.IterDirFilesEntry | gameconf_server/__init__.py:63-65 | `root/a/b` is yielded exactly when the root and `a` are directories and `b` exists in `a`, whatever kind of entry it is. |
| PackageServer.DirFiles | gameconf_server/__init__.py:87 | Every path enumerated under a named gameconf directory has at least two components. |
| PackageServer.CandidateOf | gameconf_server/__init__.py:88-99 | A local path is looked up remotely without its leading directory, as a posix path, and fetched at the full path. |
| PackageServer.Changes | gameconf_server/__init__.py:81-99 | Every change yielded names a stripped submitted file whose hash is non-empty and differs from the one reported. Its order is `PackageServer.ChangesOrder` and its entries are `PackageServer.ChangesSound`. |
| PackageServer.ChangesOrder | gameconf_server/__init__.py:85-87 | Everything from the "major.minor" directory is yielded before anything from `thirdparty`. A failure in the first ends the whole run. |
| PackageServer.ChangesSound | gameconf_server/__init__.py:81-99 | Each change names an enumerated local file by its path minus the directory. Its submitted hash is non-empty and differs from the file's current hash, which is what the change carries. Its location is the full local path. |
| PackageServer.ChangedGameconf | gameconf_server/__init__.py:81-99 | Hashing through a coherent cache yields exactly the change-set of the files as they are now, and leaves the cache coherent. On success every enumerated file with a non-empty submitted hash is recorded at its current mtime. No key other than an enumerated file's path changes. |
| PackageServer.Scan | gameconf_server/__init__.py:87-99 | The generator loop over the candidates gives the same outcome as `ChangeSet.Diff`, including a stop at the first hashing error. The cache invariant is preserved. On success every candidate with a non-empty submitted hash is recorded at its current mtime, so the next lookup is a hit. No key other than a candidate's local path changes, whatever the outcome. |
| PackageServer.IsPathUnder | gameconf_server/__init__.py:104-105 | `is_path_under(root, p)` is true exactly when `p` is NOT component-wise below `root`. |
| PackageServer.DoGet | gameconf_server/__init__.py:171-187 | 403 exactly for a path outside the working directory. Whatever is served is the bytes of the requested regular file. |
| PackageServer.PostAnswer | gameconf_server/__init__.py:142-168 | Routed to `do_GET` exactly for a path other than '/'. An `Errors` reply carries one of the two messages. A `Changed` reply comes only after the request was accepted. |
| PackageServer.DoGetSpec | gameconf_server/__init__.py:171-187 | Status 403 exactly for a path outside the working directory. 404 exactly for a path inside it that is not a regular file with a `.txt` suffix. Served bytes are that file's bytes. |
| PackageServer.PostAnswerChanged | gameconf_server/__init__.py:142-168 | Every entry of a `Changed` answer has a non-empty submitted hash that differs from the hash reported for it. |
| PackageServer.DoPost | gameconf_server/__init__.py:142-168 | With a coherent cache, the reply is `PostAnswer`. A routed GET, an `Errors` reply, or a form that aborts before hashing leaves the cache untouched. `Changed` comes only after the plan proceeds, and then every enumerated file with a non-empty submitted hash is recorded at its current mtime. No key other than an enumerated file's path changes. |
| Requests.LexLess | gameconf_server/__init__.py:159 | Tuple `<` is strict: no version is less than itself. |
| Requests.DirName | gameconf_server/__init__.py:72-73 | For at least two components the name is `str(major) + "." + str(minor)`. |
| Requests.SubmittedFiles | gameconf_server/__init__.py:165 | The file map exists exactly when every index below the count has both of its fields. A count of zero or less gives the empty map. |
| Requests.StripGamedata | gameconf_server/__init__.py:83 | A stripped name with `gamedata/` put back is the submitted name. A name without that prefix is not stripped. |
| Requests.PostPlan | gameconf_server/__init__.py:151-165 | Refused with "Failed to parse request." exactly for empty form data. It proceeds exactly when the version was parsed and is supported, the count was parsed, every declared index has both fields, and no submitted name is empty. |
| Requests.ParseVersion | gameconf_server/__init__.py:156 | A parsed version has one integer per '.'-separated part, each being that part read by `int`. |
| Requests.ParseAll | gameconf_server/__init__.py:156 | All parts parse, or some part does not, and then there is no result. |
| Requests.SupportedIff | gameconf_server/__init__.py:159 | The gate admits exactly the versions with major 1 and minor 6 to 11, whatever follows. |
| Requests.DirNameParses | gameconf_server/__init__.py:72-73 | The directory name is "major.minor", and reading it back as a version gives the first two components. |
| Requests.CollectDefined | gameconf_server/__init__.py:165 | The file comprehension succeeds exactly when every declared index has both of its fields. |
| Requests.CollectNames | gameconf_server/__init__.py:165 | The submitted map holds exactly the names of the declared indices. |
| Requests.CollectLastWins | gameconf_server/__init__.py:165 | A name given at several indices carries the hash of the last of them. |
| Requests.RemoteFilesSpec | gameconf_server/__init__.py:83 | Every submitted `gamedata/` name appears without the prefix, with its hash. Every remote name is a submitted name with the prefix taken off. |
| Requests.PostPlanSpec | gameconf_server/__init__.py:151-165 | Empty form data is refused with "Failed to parse request.". A parsed version outside the gate is refused with "Unsupported SourceMod version. Please upgrade.". It proceeds exactly when the version and every declared file field were read and no submitted name is empty, and then carries the submitted map. |
| ChangeSet.Diff | gameconf_server/__init__.py:87-99 | The generator loop run to the end yields at most one change per candidate. It is the same loop as gameconf_server.py:63-73. Its meaning is proved in `DiffSound`, `DiffComplete`, `DiffFails` and `DiffAppend`. |
| ChangeSet.DiffSound | gameconf_server/__init__.py:90-99 | Every yielded change comes from a candidate with a non-empty submitted hash that differs from the local hash the change carries. The change has that candidate's name and location. |
| ChangeSet.DiffDiffers | gameconf_server/__init__.py:90-96 | Every yielded name was submitted, with a non-empty hash different from the one yielded. |
| ChangeSet.DiffComplete | gameconf_server/__init__.py:90-99 | Every candidate whose non-empty submitted hash differs from its local hash is yielded. |
| ChangeSet.DiffFails | gameconf_server/__init__.py:94 | The run fails exactly when some candidate with a non-empty submitted hash cannot be hashed. |
| ChangeSet.DiffAppend | gameconf_server/__init__.py:87 | Chaining two candidate lists yields the first list's changes, then the second's. A failure in the first ends the run. |
| ChangeSet.LastWins | gameconf_server/__init__.py:164-166 | The `changes` dictionary is empty exactly when nothing was yielded, and has at most one entry per yielded change. Which names and values it holds is `ChangeSet.LastWinsNames` and `ChangeSet.LastWinsLatest`. |
| ChangeSet.LastWinsNames | gameconf_server/__init__.py:164-166 | The `changes` dictionary holds exactly the yielded names. |
| ChangeSet.LastWinsLatest | gameconf_server/__init__.py:164-166 | Each name holds the info of the last change yielded for it. |
| ChangeSet.BuildChanges | gameconf_server/__init__.py:164-166 | The loop that fills `changes` builds the dictionary of `LastWins`. |
| Replies.StatusCode | gameconf_server/__init__.py:176-184 | 403 exactly for a refusal and 404 exactly for a missing or unsuitable file. |
| Replies.ServeFile | gameconf_server/__init__.py:179-187 | 404 exactly unless the target is a regular `.txt` file. The bytes are served exactly when the file can also be opened, and they are the file's own bytes. Otherwise `open` raises after the 200 headers. Never a 403. |
| ScriptServer.Files | gameconf_server.py:39-41 | The files of the walk's top directory are one-component paths. |
| ScriptServer.Walk | gameconf_server.py:39-41 | Every path the walk reports is a non-empty relative path. |
| ScriptServer.SubWalks | gameconf_server.py:39-41 | Every path reported from a subdirectory has at least two components. |
| ScriptServer.GameconfFiles | gameconf_server.py:34-41 | Nothing for None or ''. Every yielded pair carries the walked root and a non-empty relative path. |
| ScriptServer.BelowIff | gameconf_server.py:41 | A path relative to a subdirectory appears, prefixed by that subdirectory's name, exactly for the paths `os.walk` found in it. |
| ScriptServer.FilesIff | gameconf_server.py:39-41 | The files `os.walk` reports at the top are exactly the one-component paths naming regular files. |
| ScriptServer.SubWalksIff | gameconf_server.py:39-41 | The files reported below subdirectories are exactly the deeper paths naming regular files. |
| ScriptServer.WalkIff | gameconf_server.py:39-41 | The walk reports exactly the paths of regular files at any depth below the root. |
| ScriptServer.PairIff | gameconf_server.py:41 | Each reported pair carries the walked root and one of the walked relative paths. |
| ScriptServer.GameconfFilesIff | gameconf_server.py:34-41 | `gameconf_files` yields nothing for None or ''. Otherwise it yields `(root, rel)` exactly for the regular files below that directory, at any depth. |
| ScriptServer.DetectSmGameconfDir | gameconf_server.py:46-49 | "major.minor" when that path exists, and None otherwise. |
| ScriptServer.ChangedGameconf | gameconf_server.py:57-73 | Every change yielded names a stripped submitted file whose hash is non-empty and differs from the one reported. That it never fails, its order, and its entries in both directions are `ScriptServer.ChangedNeverFails`, `ScriptServer.ChangedOrder`, `ScriptServer.ChangedSound` and `ScriptServer.ChangedComplete`. |
| ScriptServer.ChangedNeverFails | gameconf_server.py:63-69 | Only regular files are walked, so hashing never raises and the generator always runs to the end. |
| ScriptServer.ChangedOrder | gameconf_server.py:61-63 | Changes from the version directory come before those from `thirdparty`. |
| ScriptServer.ChangedSound | gameconf_server.py:57-73 | Each change names a walked file with a non-empty submitted hash that differs from the file's hash. The change carries that hash, the relative name and the local path. |
| ScriptServer.ChangedComplete | gameconf_server.py:63-73 | Every walked file whose non-empty submitted hash differs from its hash is yielded. |
| ScriptServer.UnreadableReported | gameconf_server.py:27-29 | A walked file that `open` refuses is reported with hash '' whenever a non-empty hash was submitted for it. |
| ScriptServer.PostAnswer | gameconf_server.py:98-127 | Routed to `do_GET` exactly for a path other than '/'. An `Errors` reply carries one of the two messages. A `Changed` reply comes only after the request was accepted. |
| ScriptServer.PostAnswerChanged | gameconf_server.py:98-127 | A well-formed request to '/' always gets a `Changed` answer. Every entry in it has a non-empty submitted hash that differs from the one reported. |
| ScriptServer.DoPost | gameconf_server.py:98-127 | The handler's reply is `PostAnswer`: routed GET, the two `Errors` documents, an abort, or the `Changed` dictionary of the full change-set. |
| ScriptServer.NonEmpty | gameconf_server.py:132 | Keeps exactly the non-empty pieces, which collapses repeated and trailing separators. |
| ScriptServer.Components | gameconf_server.py:132 | The components of a path are non-empty and contain no '/'. |
| ScriptServer.Basename | gameconf_server.py:141 | The last component contains no '/'. |
| ScriptServer.DoGet | gameconf_server.py:130-154 | 403 exactly when the request string does not start with the script-directory string. Only a regular file is served. |
| ScriptServer.DoGetSpec | gameconf_server.py:130-154 | Status 403 exactly when the request string does not start with the script-directory string. 404 exactly when it does but is not a regular `.txt` file. Served bytes are that file's bytes. |
| ScriptServer.SiblingComponents | gameconf_server.py:132-141 | For the sibling shape, the directory has one component, the request has two, and its basename is the file name. |
| ScriptServer.SiblingDirectoryServed | gameconf_server.py:135-154 | Take a directory `/d` and a sibling `/e` whose name starts with `d`. A `.txt` file in `/e` is served, although `/e/f` is not inside `/d`. |
| ScriptServer.DoGetConfined | gameconf_server.py:135-139 | The corrected handler serves only a regular file whose path components begin with the script directory's components. |
| ScriptServer.DoGetConfinedInside | gameconf_server.py:135-154 | The corrected check refuses exactly the requests that are not component-wise inside the script directory. Anything served is a file inside it. Where both checks admit a request, the reply is the same as `DoGet`. |
| ScriptServer.SiblingDirectoryRefused | gameconf_server.py:135-139 | The corrected check refuses the sibling-directory request. |

## Left out

- HTTP plumbing is not modelled: `parse_form_data`, the multipart and
  urlencoded decoding, `vdf.dumps`, the headers, `send_attribution` and
  `copyfileobj`. The handlers take the decoded fields and return the
  reply as a value.
- `main`, argument parsing, `config.ini` and the `__main__` block are
  process start-up, not request handling.
- MD5 is the parameter `digest`, and the 4096-byte chunk loop is its
  implementation. Both sit behind the file's bytes as one value.
- `resolve`, `realpath` and `url2pathname` are not modelled, and neither
  are symlinks or `..`. `DoGet` takes the path that canonicalisation
  produced, as a path or as a string.
- The disk has regular files and directories only. Sockets, devices and
  other entries that are neither are not modelled.
- The disk does not change while a request runs. Concurrent requests are
  not modelled.
- Another `OSError` from `open` or `os.stat`, such as an I/O error, is
  not modelled. Only a missing path, a directory and PermissionError are.
- `pathname2url` percent-encoding is not modelled. The location is the
  local path joined with '/'.
- `os.path.relpath(f, 'gamedata')` is modelled as stripping a leading
  `gamedata/`, and an empty name, for which it raises ValueError, as an
  abort of the POST (`Requests.PostPlan` answers `Crash`). The
  normalisation it does first is not modelled:
  - a name that reaches `gamedata` another way, such as `./gamedata/x`,
    is dropped, where the source keys it `x`;
  - a name with an empty, `.` or `..` component after the prefix, such as
    `gamedata//x` or `gamedata/a/../x`, is keyed as written (`/x`,
    `a/../x`), where the source keys it `x`;
  - so when two submitted names normalise to the same key, the source
    keeps the hash of the later one and the model only that of the
    plain `gamedata/x` spelling;
  - names outside `gamedata`, and `gamedata` itself, give keys starting
    with `..` or equal to `.` in the source. No enumerated file has such
    a key, and the model drops them.
- Python's `int` also accepts a leading '+', surrounding whitespace and
  '_' between digits. `Text.ParseInt`, and so `Requests.ParseVersion` and
  the `files` count, accept only an optional '-' followed by ASCII digits.
- Modification times are integers. Python's are floats.
- Filesystem encodings and case-insensitive file systems are not
  modelled. Names are compared as strings.
- `os.path.splitext` is modelled as a `.txt` suffix with a stem that is
  not all dots. `Path.suffix` is modelled as the last component ending in
  `.txt` with something before it.
- ModTimeCache.FileModTimeCache.PopItem: the victim is an arbitrary
  entry, not the least recently used one. The LRU order and its
  `maxsize = 1024` bound are not modelled, so `CachedMd5sum` never evicts.
- ModTimeCache.FileModTimeCache.SetItem: requires that the key exists on
  disk. A file that vanishes between hashing and the `os.stat` in
  `__setitem__` is not modelled.
- ModTimeCache.FileModTimeCache.CachedMd5sum: the answer equals a fresh
  hash only when the cache is `Coherent`. That means every entry whose
  recorded mtime still equals the file's gives what `Md5sumStr` gives now.
  Two things break it, and the source checks neither: a change of bytes
  that leaves the mtime alone, and a change of permissions. `chmod`
  leaves the mtime alone, so a cached '' or an old hash is still returned
  after it. Otherwise the contract says only what was read or stored.
- PackageServer.ChangedGameconf / PackageServer.Scan / PackageServer.DoPost:
  equal the pure change-set and answer only under a coherent cache, for
  the same reason. What they leave in the cache is stated without that
  assumption.
- PackageServer.IterDirFiles / PackageServer.TopLevelIff: every
  directory can be listed. A directory whose listing raises
  PermissionError is not modelled. In the source, `iterdir` on such a
  directory raises out of `get_changed_gameconf`, and the POST aborts
  whatever hashes were submitted.
- ScriptServer.Walk / ScriptServer.WalkIff / ScriptServer.GameconfFilesIff:
  the same assumption. `os.walk` ignores listing errors, so in the source
  the files of an unlistable directory are silently left out. The model
  walks every directory.
- HashDirectory.GameConfigDirectory.GetFileHash: the disk is passed on
  each call, since `os.path.getmtime` and `open` are not part of the class.
- The `GameConfigDirectory` revision is not called by either handler, so
  it is modelled as a class on its own.

## Findings

| source | as written | input that shows it | evidently intended | confidence | as-written member | corrected member |
|---|---|---|---|---|---|---|
| gameconf_server.py:135 | `os.path.commonprefix` compares the two paths character by character, so any request string that starts with the script-directory string passes | script directory `/a`, request for `/ab/c.txt` where the sibling directory `/ab` holds `c.txt`: the file is served | serve only files inside the script directory, the traversal protection the package revision gets with a component-wise check | not executed | ScriptServer.SiblingDirectoryServed | ScriptServer.DoGetConfinedInside |
