/**
 * The file system calls the program makes, on an abstract disk: regular
 * files with their text, directories, and a working directory against which
 * relative paths resolve. Each call either fails with an error kind and
 * leaves the disk as it was, or succeeds with the new disk.
 */
module FileSystem {
  import opened Wrappers
  import opened Text
  import opened Paths

  /**
   * The error kinds the calls meet: the first four are operating-system
   * errors, NotARegularFile is the invalid-input error `fs::copy` gives for
   * a source that is not a regular file.
   */
  datatype IoError = NotFound | AlreadyExists | IsADirectory | NotADirectory | NotARegularFile

  datatype Disk = Disk(cwd: Path, files: map<Path, string>, dirs: set<Path>)

  /** The shape every disk has: canonical names, a root, no path both a file and a directory. */
  predicate Valid(d: Disk)
  {
    && Normal(d.cwd) && d.cwd in d.dirs && [] in d.dirs
    && (forall p :: p in d.files ==> Normal(p) && p !in d.dirs && p != [])
    && (forall p :: p in d.dirs ==> Normal(p))
  }

  function Parent(p: Path): Path
    requires p != []
  {
    p[..|p| - 1]
  }

  /** q lies strictly below w: w is a proper prefix of q. */
  predicate Below(q: Path, w: Path)
  {
    |w| < |q| && q[..|w|] == w
  }

  /**
   * The error met on the way to p's directory: walking down from the root,
   * the first proper prefix of p that is a regular file (NotADirectory) or
   * that does not exist (NotFound); None when every one is a directory.
   */
  function LookupError(d: Disk, p: Path): (r: Option<IoError>)
    ensures r.Some? ==> r.value == NotFound || r.value == NotADirectory
    decreases |p|
  {
    if |p| <= 1 then None
    else
      match LookupError(d, Parent(p))
      case Some(e) => Some(e)
      case None =>
        if Parent(p) in d.files then Some(NotADirectory)
        else if Parent(p) !in d.dirs then Some(NotFound)
        else None
  }

  /**
   * `Path::canonicalize`: the components of an existing path. The empty text
   * names nothing, and a text that asks for a directory cannot name a
   * regular file. Opening a path for reading fails exactly as this does.
   */
  function Canonicalize(d: Disk, path: string): (r: Result<Path, IoError>)
  {
    var p := Resolve(d.cwd, path);
    if path == [] then Err(NotFound)
    else
      match LookupError(d, p)
      case Some(e) => Err(e)
      case None =>
        if p in d.files then (if DirectoryText(path) then Err(NotADirectory) else Ok(p))
        else if p == [] || p in d.dirs then Ok(p)
        else Err(NotFound)
  }

  /** `fs::read_to_string`: opening a directory succeeds, reading it does not. */
  function Read(d: Disk, path: string): (r: Result<string, IoError>)
  {
    match Canonicalize(d, path)
    case Err(e) => Err(e)
    case Ok(p) => if p in d.files then Ok(d.files[p]) else Err(IsADirectory)
  }

  /**
   * Why a regular file cannot be created or truncated at the path, if it
   * cannot: a directory is there, or the text ends in `/` (both "Is a
   * directory"), or it ends in `.` or `..` and names a file or nothing.
   */
  function CreateError(d: Disk, path: string): Option<IoError>
  {
    var p := Resolve(d.cwd, path);
    if path == [] then Some(NotFound)
    else
      match LookupError(d, p)
      case Some(e) => Some(e)
      case None =>
        if p == [] || p in d.dirs || LastSegment(path) == "" then Some(IsADirectory)
        else if DotText(path) then Some(if p in d.files then NotADirectory else NotFound)
        else None
  }

  /** Opening with create, write and truncate, then writing the whole text. */
  function Write(d: Disk, path: string, contents: string): (r: Result<Disk, IoError>)
  {
    match CreateError(d, path)
    case Some(e) => Err(e)
    case None => Ok(d.(files := d.files[Resolve(d.cwd, path) := contents]))
  }

  /** `fs::create_dir`; a text ending in `.` or `..` names an existing directory or fails. */
  function CreateDir(d: Disk, path: string): (r: Result<Disk, IoError>)
  {
    var p := Resolve(d.cwd, path);
    if path == [] then Err(NotFound)
    else
      match LookupError(d, p)
      case Some(e) => Err(e)
      case None =>
        if DotText(path) && p in d.files then Err(NotADirectory)
        else if p == [] || p in d.dirs || p in d.files then Err(AlreadyExists)
        else if DotText(path) then Err(NotFound)
        else Ok(d.(dirs := d.dirs + {p}))
  }

  /**
   * `fs::copy`: the source must be a regular file (a directory is rejected
   * with an invalid-input error), and its text is written to the target.
   */
  function Copy(d: Disk, from: string, to: string): (r: Result<Disk, IoError>)
  {
    match Canonicalize(d, from)
    case Err(e) => Err(e)
    case Ok(p) => if p in d.files then Write(d, to, d.files[p]) else Err(NotARegularFile)
  }

  /** The walk to q meets only proper prefixes of q, so a change at a path q is not below leaves it alone. */
  lemma {:induction false} LookupSame(d1: Disk, d2: Disk, w: Path, q: Path)
    requires !Below(q, w)
    requires forall r :: r != w ==> (r in d1.files <==> r in d2.files) && (r in d1.dirs <==> r in d2.dirs)
    ensures LookupError(d1, q) == LookupError(d2, q)
    decreases |q|
  {
    if |q| > 1 {
      var pq := Parent(q);
      assert pq != w;
      if |w| < |pq| {
        assert q[..|w|] == pq[..|w|];
      }
      LookupSame(d1, d2, w, pq);
    }
  }

  /** Below a regular file reached without error, every path fails with NotADirectory. */
  lemma {:induction false} LookupBelowFile(d: Disk, w: Path, q: Path)
    requires w != [] && w in d.files && LookupError(d, w) == None && Below(q, w)
    ensures LookupError(d, q) == Some(NotADirectory)
    decreases |q|
  {
    var pq := Parent(q);
    if |pq| == |w| {
      assert pq == w;
    } else {
      assert pq[..|w|] == q[..|w|];
      LookupBelowFile(d, w, pq);
    }
  }

  /** The empty text names nothing: every call on it fails with NotFound. */
  lemma EmptyPathNamesNothing(d: Disk, other: string, contents: string)
    ensures Canonicalize(d, "") == Err(NotFound) && Read(d, "") == Err(NotFound)
    ensures Write(d, "", contents) == Err(NotFound) && CreateDir(d, "") == Err(NotFound)
    ensures Copy(d, "", other) == Err(NotFound)
  {
  }

  /**
   * A regular file is created only under a text that can name one: not
   * empty, not ending in `/`, `.` or `..`; a final `/` is "Is a directory".
   */
  lemma WriteNeedsFileName(d: Disk, path: string, contents: string)
    ensures Write(d, path, contents).Ok? ==> path != "" && !DirectoryText(path)
    ensures path != "" && LookupError(d, Resolve(d.cwd, path)) == None && LastSegment(path) == "" ==>
      Write(d, path, contents) == Err(IsADirectory)
  {
  }

  /**
   * Reading a path returns what was last written there; a path strictly
   * below it now fails with NotADirectory, and every other path reads as
   * before.
   */
  lemma ReadAfterWrite(d: Disk, path: string, contents: string, other: string)
    requires Write(d, path, contents).Ok?
    ensures Read(Write(d, path, contents).value, path) == Ok(contents)
    ensures other != "" && Below(Resolve(d.cwd, other), Resolve(d.cwd, path)) ==>
      Read(Write(d, path, contents).value, other) == Err(NotADirectory)
    ensures Resolve(d.cwd, other) != Resolve(d.cwd, path) && !Below(Resolve(d.cwd, other), Resolve(d.cwd, path)) ==>
      Read(Write(d, path, contents).value, other) == Read(d, other)
  {
    var p, q := Resolve(d.cwd, path), Resolve(d.cwd, other);
    var d' := Write(d, path, contents).value;
    assert !Below(p, p);
    LookupSame(d, d', p, p);
    if Below(q, p) {
      LookupBelowFile(d', p, q);
    } else {
      LookupSame(d, d', p, q);
    }
  }

  /** A write adds or replaces exactly one file and keeps the disk's shape. */
  lemma WriteValid(d: Disk, path: string, contents: string)
    requires Valid(d) && Write(d, path, contents).Ok?
    ensures var d' := Write(d, path, contents).value;
      && Valid(d')
      && d'.dirs == d.dirs && d'.cwd == d.cwd
      && d'.files.Keys == d.files.Keys + {Resolve(d.cwd, path)}
  {
    ResolveNormal(d.cwd, path);
  }

  /** Creating a directory adds exactly it and keeps the disk's shape. */
  lemma CreateDirValid(d: Disk, path: string)
    requires Valid(d) && CreateDir(d, path).Ok?
    ensures var d' := CreateDir(d, path).value;
      && Valid(d')
      && d'.files == d.files && d'.cwd == d.cwd
      && d'.dirs == d.dirs + {Resolve(d.cwd, path)}
      && Canonicalize(d', path) == Ok(Resolve(d.cwd, path))
  {
    var p := Resolve(d.cwd, path);
    ResolveNormal(d.cwd, path);
    assert !Below(p, p);
    LookupSame(d, CreateDir(d, path).value, p, p);
  }

  /**
   * A canonical path names what the original path names: its text resolves
   * back to it, canonicalizes to it, and reads as the original.
   */
  lemma CanonicalizeThenRead(d: Disk, path: string)
    requires Valid(d) && Canonicalize(d, path).Ok?
    ensures Normal(Canonicalize(d, path).value)
    ensures Resolve(d.cwd, Display(Canonicalize(d, path).value)) == Canonicalize(d, path).value
    ensures Canonicalize(d, Display(Canonicalize(d, path).value)) == Canonicalize(d, path)
    ensures Read(d, Display(Canonicalize(d, path).value)) == Read(d, path)
  {
    var c := Canonicalize(d, path).value;
    ResolveNormal(d.cwd, path);
    ResolveDisplay(d.cwd, c);
    if c in d.files {
      LastSegmentDisplay(c);
    }
  }

  /**
   * A copy succeeds only from a regular file, which it leaves as it was,
   * and gives the target the source's text; a directory source is refused.
   */
  lemma CopyCopies(d: Disk, from: string, to: string)
    ensures Copy(d, from, to).Ok? ==>
      Read(d, from).Ok? && Read(Copy(d, from, to).value, to) == Read(d, from)
    ensures Canonicalize(d, from).Ok? && Canonicalize(d, from).value !in d.files ==>
      Copy(d, from, to) == Err(NotARegularFile)
  {
    if Copy(d, from, to).Ok? {
      ReadAfterWrite(d, to, d.files[Canonicalize(d, from).value], to);
    }
  }

  /** A text that asks for a directory but names a regular file fails with NotADirectory. */
  lemma ReadFileAsDirectory(d: Disk, s: string)
    requires s != "" && DirectoryText(s)
    requires Resolve(d.cwd, s) in d.files && LookupError(d, Resolve(d.cwd, s)) == None
    ensures Read(d, s) == Err(NotADirectory)
  {
  }

  /** A regular file followed by a final `/` or `/.` fails with NotADirectory. */
  lemma ReadPastFile(d: Disk, path: string, seg: string)
    requires Valid(d) && (seg == "" || seg == ".")
    requires Resolve(d.cwd, path) in d.files && LookupError(d, Resolve(d.cwd, path)) == None
    ensures Read(d, path + "/" + seg) == Err(NotADirectory)
  {
    ResolveEmpty(d.cwd);
    ResolveDirectorySuffix(d.cwd, path, seg);
    ReadFileAsDirectory(d, path + "/" + seg);
  }

  /**
   * A text that goes on past a regular file fails with NotADirectory, as
   * `config.toml` does when the configuration directory names a file: by
   * an ordinary name, by a final `/`, or by a final `/.`.
   */
  lemma ReadThroughFile(d: Disk, path: string, name: string)
    requires Valid(d) && NormalName(name)
    requires Resolve(d.cwd, path) in d.files && LookupError(d, Resolve(d.cwd, path)) == None
    ensures Read(d, Push(path, name)) == Err(NotADirectory)
    ensures Read(d, path + "/") == Err(NotADirectory)
    ensures Read(d, path + "/.") == Err(NotADirectory)
  {
    var w := Resolve(d.cwd, path);
    ResolvePushName(d.cwd, path, name);
    assert Parent(w + [name]) == w;
    ReadPastFile(d, path, "");
    assert path + "/" + "" == path + "/";
    ReadPastFile(d, path, ".");
    assert path + "/" + "." == path + "/.";
  }
}
