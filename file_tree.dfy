/** An abstract file system: a tree of directories and regular files as the
    server's Python code sees it through `os.stat`, `open`, `iterdir` and
    `os.walk`. Modification times are integers (only compared); a file that
    `open` refuses with PermissionError is marked unreadable. */
module FileTree {
  import opened Wrappers

  type Bytes = seq<bv8>

  /** A path as its sequence of components. */
  type Path = seq<string>

  datatype Node =
    | File(mtime: int, content: Bytes, readable: bool)
    | Dir(mtime: int, listing: Listing)

  /** A directory's entries in the order the operating system lists them. */
  datatype Listing = End | Item(name: string, node: Node, next: Listing)

  /** The errors `open` raises that the server does not catch. */
  datatype OsError = FileNotFound | IsADirectory

  /** The first entry of a listing with the given name. */
  function Child(l: Listing, name: string): Option<Node>
  {
    match l
    case End => None
    case Item(n, node, next) => if n == name then Some(node) else Child(next, name)
  }

  /** The node at path `p` below `n`. */
  function Lookup(n: Node, p: Path): Option<Node>
    decreases |p|
  {
    if p == [] then Some(n)
    else
      match n
      case File(_, _, _) => None
      case Dir(_, l) =>
        match Child(l, p[0])
        case None => None
        case Some(c) => Lookup(c, p[1..])
  }

  predicate IsFile(o: Option<Node>) {
    o.Some? && o.value.File?
  }

  predicate IsDir(o: Option<Node>) {
    o.Some? && o.value.Dir?
  }

  /** No directory holds two entries of the same name. */
  predicate WellFormed(n: Node) {
    match n
    case File(_, _, _) => true
    case Dir(_, l) => WellFormedListing(l)
  }

  predicate WellFormedListing(l: Listing) {
    match l
    case End => true
    case Item(name, node, next) =>
      Child(next, name).None? && WellFormed(node) && WellFormedListing(next)
  }

  /** Looking up `a + b` is looking up `b` below the node at `a`. */
  lemma {:induction false} LookupAppend(n: Node, a: Path, b: Path)
    ensures Lookup(n, a + b) == if Lookup(n, a).Some? then Lookup(Lookup(n, a).value, b) else None
    decreases |a|
  {
    if a == [] {
      assert a + b == b;
    } else {
      assert (a + b)[0] == a[0] && (a + b)[1..] == a[1..] + b;
      match n
      case File(_, _, _) =>
      case Dir(_, l) =>
        match Child(l, a[0])
        case None =>
        case Some(c) => LookupAppend(c, a[1..], b);
    }
  }

  /** A lookup below a directory does not depend on the directory's own
      modification time, and goes through its first entry of that name. */
  lemma LookupStep(m: int, name: string, node: Node, next: Listing, p: Path)
    requires p != []
    ensures Lookup(Dir(m, Item(name, node, next)), p) ==
      if p[0] == name then Lookup(node, p[1..]) else Lookup(Dir(0, next), p)
  {
  }

  lemma LookupAnyTime(m: int, l: Listing, p: Path)
    requires p != []
    ensures Lookup(Dir(m, l), p) == Lookup(Dir(0, l), p)
  {
  }

  lemma {:induction false} ChildWellFormed(l: Listing, name: string)
    requires WellFormedListing(l)
    ensures Child(l, name).Some? ==> WellFormed(Child(l, name).value)
  {
    match l
    case End =>
    case Item(n, node, next) =>
      if n != name { ChildWellFormed(next, name); }
  }

  /** Every node of a well-formed tree is well formed. */
  lemma {:induction false} LookupWellFormed(n: Node, p: Path)
    requires WellFormed(n)
    ensures Lookup(n, p).Some? ==> WellFormed(Lookup(n, p).value)
    decreases |p|
  {
    if p != [] && n.Dir? {
      ChildWellFormed(n.listing, p[0]);
      if Child(n.listing, p[0]).Some? {
        LookupWellFormed(Child(n.listing, p[0]).value, p[1..]);
      }
    }
  }

  /** `get_md5sum_str`: the digest of the file's bytes, or '' when opening
      it raises PermissionError. Opening a missing path or a directory
      raises an error the function does not catch. */
  function Md5sumStr(fs: Node, p: Path, digest: Bytes -> string): (r: Result<string, OsError>)
    ensures r.Success? <==> IsFile(Lookup(fs, p))
    ensures r == Failure(FileNotFound) <==> Lookup(fs, p).None?
    ensures IsFile(Lookup(fs, p)) ==>
      r.value == if Lookup(fs, p).value.readable then digest(Lookup(fs, p).value.content) else ""
  {
    match Lookup(fs, p)
    case None => Failure(FileNotFound)
    case Some(Dir(_, _)) => Failure(IsADirectory)
    case Some(File(_, content, readable)) => Success(if readable then digest(content) else "")
  }
}
