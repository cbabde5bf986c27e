/**
 * The program's run on a disk: building one file from its template,
 * backing up every output file, the run with a chosen set (set check,
 * backup, per-file eligibility, per-file errors logged without stopping the
 * run), and what reaches standard output.
 */
module Stencil {
  import opened Wrappers
  import opened Text
  import opened Paths
  import opened FileSystem
  import opened Pattern
  import opened Matching
  import opened Substitution
  import opened Config
  import opened Logging
  import opened Backup

  datatype Failure =
    | Io(error: IoError)
    | BackupDirFailed
    | SetNotDefined(setName: string, available: seq<string>)
    | Missing(missing: MissingKey)
    | ConfigInvalid(message: string)

  /** How an I/O error displays on Linux; the last is the text `fs::copy` gives its invalid-input error. */
  function IoText(e: IoError): string
  {
    match e
    case NotFound => "No such file or directory (os error 2)"
    case AlreadyExists => "File exists (os error 17)"
    case IsADirectory => "Is a directory (os error 21)"
    case NotADirectory => "Not a directory (os error 20)"
    case NotARegularFile => "the source path is not an existing regular file"
  }

  /** The text of an error, as it is logged or printed. */
  function FailureMessage(f: Failure): string
  {
    match f
    case Io(e) => IoText(e)
    case BackupDirFailed => "Failed to create backup directory"
    case SetNotDefined(name, available) => NotDefinedMessage(name, available)
    case Missing(m) =>
      "in file `" + m.template + "`:\ncould not find key `" + m.key + "` in set `" + m.setName
      + "`\naborting for this file"
    case ConfigInvalid(message) => message
  }

  /** What a step of the run returns: its result, the disk after it, and its log messages. */
  datatype Outcome = Outcome(result: Result<(), Failure>, disk: Disk, log: seq<Entry>)

  function Prefixed(log: seq<Entry>, o: Outcome): Outcome
  {
    o.(log := log + o.log)
  }

  function Delims(c: Configuration): Delimiters
  {
    Delimiters(c.before, c.after)
  }

  function BuildingMessage(file: TemplatedFile): string
  {
    "building file `" + file.outputPath + "` from template `" + file.template + "`"
  }

  // ---------------------------------------------------------------- replace_file

  /**
   * One file: read the template under the configuration directory,
   * substitute it with the set, and only then create or truncate the output.
   */
  function ReplaceFileSpec(disk: Disk, file: TemplatedFile, c: Configuration, setName: string, folder: string): Outcome
    requires setName in c.sets && |c.before| > 0
  {
    var entry := Entry(Trace, BuildingMessage(file));
    var templatePath := Push(folder, file.template);
    match Read(disk, templatePath)
    case Err(e) => Outcome(Err(Io(e)), disk, [entry])
    case Ok(template) =>
      match Substitute(template, Delims(c), c.sets[setName].mapping)
      case Err(key) => Outcome(Err(Missing(MissingKey(templatePath, key, setName))), disk, [entry])
      case Ok(text) =>
        match Write(disk, file.outputPath, text)
        case Err(e) => Outcome(Err(Io(e)), disk, [entry])
        case Ok(d) => Outcome(Ok(()), d, [entry])
  }

  method ReplaceFile(disk: Disk, file: TemplatedFile, c: Configuration, setName: string, folder: string)
    returns (o: Outcome)
    requires setName in c.sets && |c.before| > 0
    ensures o == ReplaceFileSpec(disk, file, c, setName, folder)
  {
    var entry := Entry(Trace, BuildingMessage(file));
    var templatePath := Push(folder, file.template);
    var read := Read(disk, templatePath);
    if read.Err? {
      return Outcome(Err(Io(read.error)), disk, [entry]);
    }
    var replaced := ReplaceTemplate(templatePath, read.value, Delims(c), setName, c.sets[setName].mapping);
    if replaced.Err? {
      return Outcome(Err(Missing(replaced.error)), disk, [entry]);
    }
    var written := Write(disk, file.outputPath, replaced.value);
    if written.Err? {
      return Outcome(Err(Io(written.error)), disk, [entry]);
    }
    o := Outcome(Ok(()), written.value, [entry]);
  }

  /**
   * A file is built exactly when its template reads, every key has a value
   * and the output can be written; the output then holds the substitution.
   * On any error, a missing key included, the disk is as it was: the output
   * is opened only after the whole template was substituted.
   */
  lemma ReplaceFileEffect(disk: Disk, file: TemplatedFile, c: Configuration, setName: string, folder: string)
    requires setName in c.sets && |c.before| > 0
    ensures var o := ReplaceFileSpec(disk, file, c, setName, folder);
      var read := Read(disk, Push(folder, file.template));
      var text := if read.Ok? then Substitute(read.value, Delims(c), c.sets[setName].mapping) else Err("");
      && (o.result.Ok? <==> read.Ok? && text.Ok? && Write(disk, file.outputPath, text.value).Ok?)
      && (o.result.Ok? ==> Read(o.disk, file.outputPath) == Ok(text.value))
      && (o.result.Err? ==> o.disk == disk)
      && (Valid(disk) ==> Valid(o.disk))
  {
    var o := ReplaceFileSpec(disk, file, c, setName, folder);
    var read := Read(disk, Push(folder, file.template));
    if o.result.Ok? {
      var text := Substitute(read.value, Delims(c), c.sets[setName].mapping).value;
      ReadAfterWrite(disk, file.outputPath, text, file.outputPath);
      if Valid(disk) {
        WriteValid(disk, file.outputPath, text);
      }
    }
  }

  /** A missing key is reported with the template's path, the first missing key and the set. */
  lemma ReplaceFileMissingKey(disk: Disk, file: TemplatedFile, c: Configuration, setName: string, folder: string)
    requires setName in c.sets && |c.before| > 0
    requires Read(disk, Push(folder, file.template)).Ok?
    ensures var template := Read(disk, Push(folder, file.template)).value;
      var mapping := c.sets[setName].mapping;
      var ms := Tokens(template, Delims(c));
      var o := ReplaceFileSpec(disk, file, c, setName, folder);
      (exists i :: 0 <= i < |ms| && ms[i].key !in mapping) <==>
        o.result.Err? && o.result.error.Missing?
    ensures var template := Read(disk, Push(folder, file.template)).value;
      var mapping := c.sets[setName].mapping;
      var ms := Tokens(template, Delims(c));
      var o := ReplaceFileSpec(disk, file, c, setName, folder);
      o.result.Err? && o.result.error.Missing? ==>
        var m := o.result.error.missing;
        && m.template == Push(folder, file.template) && m.setName == setName && m.key !in mapping
        && exists i :: 0 <= i < |ms| && ms[i].key == m.key && AllKeysIn(ms[..i], mapping)
  {
  }

  // ---------------------------------------------------------------- backup_files

  function BackingUpMessage(file: TemplatedFile, backupPath: string): string
  {
    "Backing up `" + file.outputPath + "` into `" + backupPath + "`"
  }

  /** Copy each output file, in order, into the backup directory; the first failure stops. */
  function BackupEach(disk: Disk, files: seq<TemplatedFile>, backupFolder: string): Outcome
    decreases |files|
  {
    if files == [] then Outcome(Ok(()), disk, [])
    else
      match Canonicalize(disk, files[0].outputPath)
      case Err(e) => Outcome(Err(Io(e)), disk, [])
      case Ok(p) =>
        var backupPath := Push(backupFolder, BackupName(p));
        var entry := Entry(Trace, BackingUpMessage(files[0], backupPath));
        match Copy(disk, Display(p), backupPath)
        case Err(e) => Outcome(Err(Io(e)), disk, [entry])
        case Ok(d) => Prefixed([entry], BackupEach(d, files[1..], backupFolder))
  }

  function BackupFolder(folder: string): string
  {
    Push(folder, "backup")
  }

  /** Make the backup directory (an existing one will do), then back up every file. */
  function BackupSpec(disk: Disk, files: seq<TemplatedFile>, folder: string): Outcome
  {
    var backupFolder := BackupFolder(folder);
    match CreateDir(disk, backupFolder)
    case Err(e) =>
      if e == AlreadyExists then BackupEach(disk, files, backupFolder)
      else Outcome(Err(BackupDirFailed), disk, [])
    case Ok(d) => BackupEach(d, files, backupFolder)
  }

  lemma PrefixedTwice(a: seq<Entry>, b: seq<Entry>, o: Outcome)
    ensures Prefixed(a, Prefixed(b, o)) == Prefixed(a + b, o)
  {
    assert a + (b + o.log) == (a + b) + o.log;
  }

  /** BackupEach on the files from i on, by its first step. */
  lemma BackupEachAt(d: Disk, files: seq<TemplatedFile>, i: nat, backupFolder: string)
    requires i < |files|
    ensures var c := Canonicalize(d, files[i].outputPath);
      c.Err? ==> BackupEach(d, files[i..], backupFolder) == Outcome(Err(Io(c.error)), d, [])
    ensures var c := Canonicalize(d, files[i].outputPath);
      c.Ok? ==>
        var backupPath := Push(backupFolder, BackupName(c.value));
        var entry := Entry(Trace, BackingUpMessage(files[i], backupPath));
        var copied := Copy(d, Display(c.value), backupPath);
        && (copied.Err? ==> BackupEach(d, files[i..], backupFolder) == Outcome(Err(Io(copied.error)), d, [entry]))
        && (copied.Ok? ==> BackupEach(d, files[i..], backupFolder)
                           == Prefixed([entry], BackupEach(copied.value, files[i + 1..], backupFolder)))
  {
    assert files[i..][0] == files[i] && files[i..][1..] == files[i + 1..];
  }

  /** One successful step of the backup loop keeps its invariant. */
  lemma BackupStep(d: Disk, files: seq<TemplatedFile>, i: nat, backupFolder: string, log: seq<Entry>,
                   p: Path, copied: Disk)
    requires i < |files|
    requires Canonicalize(d, files[i].outputPath) == Ok(p)
    requires Copy(d, Display(p), Push(backupFolder, BackupName(p))) == Ok(copied)
    ensures Prefixed(log + [Entry(Trace, BackingUpMessage(files[i], Push(backupFolder, BackupName(p))))],
                     BackupEach(copied, files[i + 1..], backupFolder))
         == Prefixed(log, BackupEach(d, files[i..], backupFolder))
  {
    BackupEachAt(d, files, i, backupFolder);
    var entry := Entry(Trace, BackingUpMessage(files[i], Push(backupFolder, BackupName(p))));
    PrefixedTwice(log, [entry], BackupEach(copied, files[i + 1..], backupFolder));
  }

  method BackupFiles(disk: Disk, files: seq<TemplatedFile>, folder: string) returns (o: Outcome)
    ensures o == BackupSpec(disk, files, folder)
  {
    var backupFolder := BackupFolder(folder);
    var created := CreateDir(disk, backupFolder);
    var d := disk;
    if created.Err? {
      if created.error != AlreadyExists {
        return Outcome(Err(BackupDirFailed), disk, []);
      }
    } else {
      d := created.value;
    }
    ghost var start := d;
    var log: seq<Entry> := [];
    var i := 0;
    while i < |files|
      invariant 0 <= i <= |files|
      invariant Prefixed(log, BackupEach(d, files[i..], backupFolder)) == BackupEach(start, files, backupFolder)
      decreases |files| - i
    {
      var canonical := Canonicalize(d, files[i].outputPath);
      if canonical.Err? {
        BackupEachAt(d, files, i, backupFolder);
        return Outcome(Err(Io(canonical.error)), d, log);
      }
      var backupPath := Push(backupFolder, BackupName(canonical.value));
      var entry := Entry(Trace, BackingUpMessage(files[i], backupPath));
      var copied := Copy(d, Display(canonical.value), backupPath);
      if copied.Err? {
        BackupEachAt(d, files, i, backupFolder);
        return Outcome(Err(Io(copied.error)), d, log + [entry]);
      }
      BackupStep(d, files, i, backupFolder, log, canonical.value, copied.value);
      log := log + [entry];
      d := copied.value;
      i := i + 1;
    }
    assert files[i..] == [];
    assert log + [] == log;
    o := Outcome(Ok(()), d, log);
  }

  /** p lies directly inside dir. */
  predicate ChildOf(p: Path, dir: Path)
  {
    |p| == |dir| + 1 && p[..|dir|] == dir
  }

  /** The two disks agree on every file outside dir and on the working directory. */
  ghost predicate SameOutside(d1: Disk, d2: Disk, dir: Path)
  {
    && d1.cwd == d2.cwd
    && (forall p :: !ChildOf(p, dir) ==> (p in d1.files <==> p in d2.files))
    && (forall p :: p in d1.files && !ChildOf(p, dir) ==> d1.files[p] == d2.files[p])
  }

  /** Backing up writes nothing but files directly inside the backup directory. */
  lemma {:induction false} BackupEachFrame(disk: Disk, files: seq<TemplatedFile>, backupFolder: string)
    requires Valid(disk)
    ensures var o := BackupEach(disk, files, backupFolder);
      && Valid(o.disk) && o.disk.dirs == disk.dirs
      && SameOutside(disk, o.disk, Resolve(disk.cwd, backupFolder))
    decreases |files|
  {
    if files != [] {
      var c := Canonicalize(disk, files[0].outputPath);
      if c.Ok? {
        var p := c.value;
        var backupPath := Push(backupFolder, BackupName(p));
        var copied := Copy(disk, Display(p), backupPath);
        if copied.Ok? {
          CanonicalizeThenRead(disk, files[0].outputPath);
          assert p in disk.files;
          BackupNameIsFileName(p);
          ResolvePushName(disk.cwd, backupFolder, BackupName(p));
          WriteValid(disk, backupPath, disk.files[p]);
          BackupEachFrame(copied.value, files[1..], backupFolder);
        }
      }
    }
  }

  /**
   * Backup stops the whole run at a file whose output does not exist yet:
   * if any output path, outside the backup directory, names nothing on the
   * disk, backing up fails.
   */
  lemma {:induction false} BackupEachAborts(disk: Disk, files: seq<TemplatedFile>, backupFolder: string, j: nat)
    requires Valid(disk) && j < |files|
    requires var q := Resolve(disk.cwd, files[j].outputPath);
      q !in disk.files && q !in disk.dirs && !ChildOf(q, Resolve(disk.cwd, backupFolder))
    ensures BackupEach(disk, files, backupFolder).result.Err?
    decreases j
  {
    var c := Canonicalize(disk, files[0].outputPath);
    if j > 0 && c.Ok? {
      var p := c.value;
      var backupPath := Push(backupFolder, BackupName(p));
      var copied := Copy(disk, Display(p), backupPath);
      if copied.Ok? {
        var d := copied.value;
        BackupEachFrame(disk, [files[0]], backupFolder);
        assert BackupEach(disk, [files[0]], backupFolder).disk == BackupEach(d, [], backupFolder).disk == d;
        assert files[1..][j - 1] == files[j];
        BackupEachAborts(d, files[1..], backupFolder, j - 1);
      }
    }
  }

  /** When every file is backed up, each one's backup exists under its backup name. */
  lemma {:induction false} BackupEachCopies(disk: Disk, files: seq<TemplatedFile>, backupFolder: string)
    requires Valid(disk) && BackupEach(disk, files, backupFolder).result.Ok?
    ensures forall k :: 0 <= k < |files| ==>
      Resolve(disk.cwd, backupFolder) + [BackupName(Resolve(disk.cwd, files[k].outputPath))]
        in BackupEach(disk, files, backupFolder).disk.files
    decreases |files|
  {
    if files != [] {
      var bd := Resolve(disk.cwd, backupFolder);
      var p := Canonicalize(disk, files[0].outputPath).value;
      var backupPath := Push(backupFolder, BackupName(p));
      var d := Copy(disk, Display(p), backupPath).value;
      CanonicalizeThenRead(disk, files[0].outputPath);
      BackupNameIsFileName(p);
      ResolvePushName(disk.cwd, backupFolder, BackupName(p));
      WriteValid(disk, backupPath, disk.files[p]);
      assert bd + [BackupName(p)] in d.files;
      BackupEachFrame(d, files[1..], backupFolder);
      BackupEachKeeps(d, files[1..], backupFolder);
      BackupEachCopies(d, files[1..], backupFolder);
      forall k | 1 <= k < |files|
        ensures bd + [BackupName(Resolve(disk.cwd, files[k].outputPath))] in BackupEach(disk, files, backupFolder).disk.files
      {
        assert files[1..][k - 1] == files[k];
      }
    }
  }

  /** Backing up never removes a file. */
  lemma {:induction false} BackupEachKeeps(disk: Disk, files: seq<TemplatedFile>, backupFolder: string)
    ensures disk.files.Keys <= BackupEach(disk, files, backupFolder).disk.files.Keys
    decreases |files|
  {
    if files != [] {
      var c := Canonicalize(disk, files[0].outputPath);
      if c.Ok? {
        var copied := Copy(disk, Display(c.value), Push(backupFolder, BackupName(c.value)));
        if copied.Ok? {
          BackupEachKeeps(copied.value, files[1..], backupFolder);
        }
      }
    }
  }

  /**
   * Backing up touches only the backup directory: it may create it, and
   * it writes files directly inside it; everything else stays as it was.
   */
  lemma BackupFrame(disk: Disk, files: seq<TemplatedFile>, folder: string)
    requires Valid(disk)
    ensures var o := BackupSpec(disk, files, folder);
      var bd := Resolve(disk.cwd, BackupFolder(folder));
      && Valid(o.disk)
      && o.disk.dirs <= disk.dirs + {bd}
      && SameOutside(disk, o.disk, bd)
  {
    var created := CreateDir(disk, BackupFolder(folder));
    if created.Ok? {
      CreateDirValid(disk, BackupFolder(folder));
      BackupEachFrame(created.value, files, BackupFolder(folder));
    } else {
      BackupEachFrame(disk, files, BackupFolder(folder));
    }
  }

  /**
   * A file whose output does not exist yet (outside the backup directory)
   * makes the backup, and so the run, fail.
   */
  lemma BackupAbortsOnMissingOutput(disk: Disk, files: seq<TemplatedFile>, folder: string, j: nat)
    requires Valid(disk) && j < |files|
    requires var q := Resolve(disk.cwd, files[j].outputPath);
      && q !in disk.files && q !in disk.dirs
      && !ChildOf(q, Resolve(disk.cwd, BackupFolder(folder)))
      && q != Resolve(disk.cwd, BackupFolder(folder))
    ensures BackupSpec(disk, files, folder).result.Err?
  {
    var created := CreateDir(disk, BackupFolder(folder));
    if created.Ok? {
      CreateDirValid(disk, BackupFolder(folder));
      BackupEachAborts(created.value, files, BackupFolder(folder), j);
    } else if created.error == AlreadyExists {
      BackupEachAborts(disk, files, BackupFolder(folder), j);
    }
  }

  /**
   * After a successful backup the k-th output has a copy under its backup
   * name. When the output lies outside the backup directory and no later
   * file shares its backup name, the copy holds the output's text from
   * before the backup.
   */
  lemma BackupCopiesAll(disk: Disk, files: seq<TemplatedFile>, folder: string, k: nat)
    requires Valid(disk) && BackupSpec(disk, files, folder).result.Ok? && k < |files|
    ensures Resolve(disk.cwd, BackupFolder(folder)) + [BackupName(Resolve(disk.cwd, files[k].outputPath))]
      in BackupSpec(disk, files, folder).disk.files
    ensures var q := Resolve(disk.cwd, files[k].outputPath);
      var bd := Resolve(disk.cwd, BackupFolder(folder));
      !ChildOf(q, bd) && (forall j :: k < j < |files| ==> BackupName(Resolve(disk.cwd, files[j].outputPath)) != BackupName(q)) ==>
        && q in disk.files
        && BackupSpec(disk, files, folder).disk.files[bd + [BackupName(q)]] == disk.files[q]
  {
    var start := disk;
    var created := CreateDir(disk, BackupFolder(folder));
    if created.Ok? {
      CreateDirValid(disk, BackupFolder(folder));
      start := created.value;
    }
    BackupEachCopies(start, files, BackupFolder(folder));
    var q := Resolve(disk.cwd, files[k].outputPath);
    var bd := Resolve(disk.cwd, BackupFolder(folder));
    if !ChildOf(q, bd) && (forall j :: k < j < |files| ==> BackupName(Resolve(disk.cwd, files[j].outputPath)) != BackupName(q)) {
      BackupEachHolds(start, files, BackupFolder(folder), k);
    }
  }

  /**
   * Of two outputs sharing a backup name, the backup holds the later one's
   * text: its copy overwrites the earlier one's.
   */
  lemma BackupLastWins(disk: Disk, files: seq<TemplatedFile>, folder: string, i: nat, k: nat)
    requires Valid(disk) && BackupSpec(disk, files, folder).result.Ok? && i < k < |files|
    requires BackupName(Resolve(disk.cwd, files[i].outputPath)) == BackupName(Resolve(disk.cwd, files[k].outputPath))
    requires !ChildOf(Resolve(disk.cwd, files[k].outputPath), Resolve(disk.cwd, BackupFolder(folder)))
    requires forall j :: k < j < |files| ==>
      BackupName(Resolve(disk.cwd, files[j].outputPath)) != BackupName(Resolve(disk.cwd, files[k].outputPath))
    ensures Resolve(disk.cwd, files[k].outputPath) in disk.files
    ensures Resolve(disk.cwd, BackupFolder(folder)) + [BackupName(Resolve(disk.cwd, files[i].outputPath))]
      in BackupSpec(disk, files, folder).disk.files
    ensures BackupSpec(disk, files, folder).disk.files[
              Resolve(disk.cwd, BackupFolder(folder)) + [BackupName(Resolve(disk.cwd, files[i].outputPath))]]
         == disk.files[Resolve(disk.cwd, files[k].outputPath)]
  {
    BackupCopiesAll(disk, files, folder, k);
  }

  /** Backing up changes no file other than the backup paths of the files. */
  lemma {:induction false} BackupEachWrites(disk: Disk, files: seq<TemplatedFile>, backupFolder: string, p: Path)
    requires Valid(disk) && p in disk.files
    requires forall j :: 0 <= j < |files| ==>
      p != Resolve(disk.cwd, backupFolder) + [BackupName(Resolve(disk.cwd, files[j].outputPath))]
    ensures p in BackupEach(disk, files, backupFolder).disk.files
    ensures BackupEach(disk, files, backupFolder).disk.files[p] == disk.files[p]
    decreases |files|
  {
    if files != [] {
      var c := Canonicalize(disk, files[0].outputPath);
      if c.Ok? {
        var q := c.value;
        var backupPath := Push(backupFolder, BackupName(q));
        var copied := Copy(disk, Display(q), backupPath);
        if copied.Ok? {
          var d := FirstBackup(disk, files[0], backupFolder);
          forall j | 0 <= j < |files[1..]|
            ensures p != Resolve(d.cwd, backupFolder) + [BackupName(Resolve(d.cwd, files[1..][j].outputPath))]
          {
            assert files[1..][j] == files[j + 1];
          }
          BackupEachWrites(d, files[1..], backupFolder, p);
        }
      }
    }
  }

  /**
   * The disk after backing up one file: the backup path inside the backup
   * directory now holds the file's text, and nothing else changed.
   */
  function FirstBackup(disk: Disk, file: TemplatedFile, backupFolder: string): (d: Disk)
    requires Valid(disk) && Canonicalize(disk, file.outputPath).Ok?
    requires Copy(disk, Display(Canonicalize(disk, file.outputPath).value),
                  Push(backupFolder, BackupName(Canonicalize(disk, file.outputPath).value))).Ok?
    ensures var q := Resolve(disk.cwd, file.outputPath);
      var w := Resolve(disk.cwd, backupFolder) + [BackupName(q)];
      && q in disk.files && Valid(d) && d.cwd == disk.cwd && d.dirs == disk.dirs
      && ChildOf(w, Resolve(disk.cwd, backupFolder))
      && d.files == disk.files[w := disk.files[q]]
  {
    var q := Canonicalize(disk, file.outputPath).value;
    var backupPath := Push(backupFolder, BackupName(q));
    CanonicalizeThenRead(disk, file.outputPath);
    BackupNameIsFileName(q);
    ResolvePushName(disk.cwd, backupFolder, BackupName(q));
    WriteValid(disk, backupPath, disk.files[q]);
    Copy(disk, Display(q), backupPath).value
  }

  /**
   * The backup of an output outside the backup directory that no later
   * file shares a backup name with holds the output's text.
   */
  lemma {:induction false} BackupEachHolds(disk: Disk, files: seq<TemplatedFile>, backupFolder: string, k: nat)
    requires Valid(disk) && BackupEach(disk, files, backupFolder).result.Ok? && k < |files|
    requires !ChildOf(Resolve(disk.cwd, files[k].outputPath), Resolve(disk.cwd, backupFolder))
    requires forall j :: k < j < |files| ==>
      BackupName(Resolve(disk.cwd, files[j].outputPath)) != BackupName(Resolve(disk.cwd, files[k].outputPath))
    ensures Resolve(disk.cwd, files[k].outputPath) in disk.files
    ensures Resolve(disk.cwd, backupFolder) + [BackupName(Resolve(disk.cwd, files[k].outputPath))]
      in BackupEach(disk, files, backupFolder).disk.files
    ensures BackupEach(disk, files, backupFolder).disk.files[
              Resolve(disk.cwd, backupFolder) + [BackupName(Resolve(disk.cwd, files[k].outputPath))]]
         == disk.files[Resolve(disk.cwd, files[k].outputPath)]
    decreases |files|
  {
    var bd := Resolve(disk.cwd, backupFolder);
    var d := FirstBackup(disk, files[0], backupFolder);
    var q0 := Resolve(disk.cwd, files[0].outputPath);
    var w := bd + [BackupName(q0)];
    assert BackupEach(disk, files, backupFolder).disk == BackupEach(d, files[1..], backupFolder).disk;
    assert BackupEach(d, files[1..], backupFolder).result.Ok?;
    if k == 0 {
      forall j | 0 <= j < |files[1..]|
        ensures w != Resolve(d.cwd, backupFolder) + [BackupName(Resolve(d.cwd, files[1..][j].outputPath))]
      {
        assert files[1..][j] == files[j + 1];
        assert (bd + [BackupName(q0)])[|bd|] == BackupName(q0);
      }
      BackupEachWrites(d, files[1..], backupFolder, w);
    } else {
      assert files[1..][k - 1] == files[k];
      forall j | k - 1 < j < |files[1..]|
        ensures BackupName(Resolve(d.cwd, files[1..][j].outputPath)) != BackupName(Resolve(d.cwd, files[1..][k - 1].outputPath))
      {
        assert files[1..][j] == files[j + 1];
      }
      BackupEachHolds(d, files[1..], backupFolder, k - 1);
    }
  }

  // ---------------------------------------------------------------- the run with a set

  /**
   * The per-file loop of a run: a file the rule skips is logged, a file that
   * fails is logged as a warning, and the loop goes on with the next file.
   */
  function ProcessEach(disk: Disk, files: seq<TemplatedFile>, c: Configuration, setName: string, folder: string): Outcome
    requires setName in c.sets && |c.before| > 0
    decreases |files|
  {
    if files == [] then Outcome(Ok(()), disk, [])
    else
      var e := Decide(files[0], setName, c.sets[setName].whitelistOnly);
      if e != Process then
        Prefixed([Entry(Trace, SkipMessage(e, setName, files[0].outputPath))],
                 ProcessEach(disk, files[1..], c, setName, folder))
      else
        var o := ReplaceFileSpec(disk, files[0], c, setName, folder);
        var warning := if o.result.Err? then [Entry(Warn, FailureMessage(o.result.error))] else [];
        Prefixed(o.log + warning, ProcessEach(o.disk, files[1..], c, setName, folder))
  }

  /** The run with a set the configuration defines: backup when asked, then every file. */
  function RunSpec(disk: Disk, c: Configuration, setName: string, folder: string): Outcome
    requires setName in c.sets && |c.before| > 0
  {
    if c.backup then
      var b := BackupSpec(disk, c.files, folder);
      if b.result.Err? then b else Prefixed(b.log, ProcessEach(b.disk, c.files, c, setName, folder))
    else ProcessEach(disk, c.files, c, setName, folder)
  }

  /** ProcessEach on the files from i on, by its first step. */
  lemma ProcessEachAt(d: Disk, files: seq<TemplatedFile>, i: nat, c: Configuration, setName: string, folder: string)
    requires setName in c.sets && |c.before| > 0 && i < |files|
    ensures var e := Decide(files[i], setName, c.sets[setName].whitelistOnly);
      e != Process ==>
        ProcessEach(d, files[i..], c, setName, folder)
        == Prefixed([Entry(Trace, SkipMessage(e, setName, files[i].outputPath))],
                    ProcessEach(d, files[i + 1..], c, setName, folder))
    ensures var e := Decide(files[i], setName, c.sets[setName].whitelistOnly);
      var o := ReplaceFileSpec(d, files[i], c, setName, folder);
      var warning := if o.result.Err? then [Entry(Warn, FailureMessage(o.result.error))] else [];
      e == Process ==>
        ProcessEach(d, files[i..], c, setName, folder)
        == Prefixed(o.log + warning, ProcessEach(o.disk, files[i + 1..], c, setName, folder))
  {
    assert files[i..][0] == files[i] && files[i..][1..] == files[i + 1..];
  }

  /**
   * `main_err` with `--run`: an unknown set is an error listing the defined
   * sets and touches nothing; otherwise the run of RunSpec.
   */
  method Run(disk: Disk, c: Configuration, setName: string, folder: string) returns (o: Outcome)
    requires |c.before| > 0
    ensures setName !in c.sets ==>
      && o.result.Err? && o.result.error.SetNotDefined? && o.result.error.setName == setName
      && Enumerates(o.result.error.available, c.sets)
      && o.disk == disk && o.log == []
    ensures setName in c.sets ==> o == RunSpec(disk, c, setName, folder)
  {
    if setName !in c.sets {
      var names := SetNames(c.sets);
      return Outcome(Err(SetNotDefined(setName, names)), disk, []);
    }
    var d := disk;
    var log: seq<Entry> := [];
    if c.backup {
      var b := BackupFiles(disk, c.files, folder);
      if b.result.Err? {
        return b;
      }
      d := b.disk;
      log := b.log;
    }
    ghost var start, startLog := d, log;
    assert Prefixed(log, ProcessEach(d, c.files[0..], c, setName, folder)) == RunSpec(disk, c, setName, folder) by {
      assert c.files[0..] == c.files;
      assert [] + ProcessEach(d, c.files, c, setName, folder).log == ProcessEach(d, c.files, c, setName, folder).log;
    }
    var whitelistOnly := c.sets[setName].whitelistOnly;
    var i := 0;
    while i < |c.files|
      invariant 0 <= i <= |c.files|
      invariant Prefixed(log, ProcessEach(d, c.files[i..], c, setName, folder)) == RunSpec(disk, c, setName, folder)
      decreases |c.files| - i
    {
      ProcessEachAt(d, c.files, i, c, setName, folder);
      var file := c.files[i];
      var e := Decide(file, setName, whitelistOnly);
      if e != Process {
        var entry := Entry(Trace, SkipMessage(e, setName, file.outputPath));
        PrefixedTwice(log, [entry], ProcessEach(d, c.files[i + 1..], c, setName, folder));
        log := log + [entry];
      } else {
        var r := ReplaceFile(d, file, c, setName, folder);
        var warning := if r.result.Err? then [Entry(Warn, FailureMessage(r.result.error))] else [];
        PrefixedTwice(log, r.log + warning, ProcessEach(r.disk, c.files[i + 1..], c, setName, folder));
        log := log + (r.log + warning);
        d := r.disk;
      }
      i := i + 1;
    }
    assert c.files[i..] == [];
    assert log + [] == log;
    o := Outcome(Ok(()), d, log);
  }

  /** An error in one file never stops the run: the per-file loop always ends well. */
  lemma {:induction false} ProcessNeverFails(disk: Disk, files: seq<TemplatedFile>, c: Configuration, setName: string, folder: string)
    requires setName in c.sets && |c.before| > 0
    ensures ProcessEach(disk, files, c, setName, folder).result == Ok(())
    decreases |files|
  {
    if files != [] {
      var o := ReplaceFileSpec(disk, files[0], c, setName, folder);
      ProcessNeverFails(disk, files[1..], c, setName, folder);
      ProcessNeverFails(o.disk, files[1..], c, setName, folder);
    }
  }

  /**
   * The per-file loop over two runs of files is the loop over the first,
   * continued from where it left the disk over the second, its log after.
   */
  lemma {:induction false} ProcessEachAppend(disk: Disk, a: seq<TemplatedFile>, b: seq<TemplatedFile>,
                                             c: Configuration, setName: string, folder: string)
    requires setName in c.sets && |c.before| > 0
    ensures ProcessEach(disk, a + b, c, setName, folder)
         == Prefixed(ProcessEach(disk, a, c, setName, folder).log,
                     ProcessEach(ProcessEach(disk, a, c, setName, folder).disk, b, c, setName, folder))
    decreases |a|
  {
    if a == [] {
      assert a + b == b;
      AppendEmpty(ProcessEach(disk, b, c, setName, folder).log);
    } else {
      ConsAppend(a, b);
      var e := Decide(a[0], setName, c.sets[setName].whitelistOnly);
      var o := ReplaceFileSpec(disk, a[0], c, setName, folder);
      var head := if e != Process then [Entry(Trace, SkipMessage(e, setName, a[0].outputPath))]
                  else o.log + (if o.result.Err? then [Entry(Warn, FailureMessage(o.result.error))] else []);
      var d := if e != Process then disk else o.disk;
      assert ProcessEach(disk, a + b, c, setName, folder) == Prefixed(head, ProcessEach(d, a[1..] + b, c, setName, folder));
      assert ProcessEach(disk, a, c, setName, folder) == Prefixed(head, ProcessEach(d, a[1..], c, setName, folder));
      ProcessEachAppend(d, a[1..], b, c, setName, folder);
      var r := ProcessEach(d, a[1..], c, setName, folder);
      PrefixedTwice(head, r.log, ProcessEach(r.disk, b, c, setName, folder));
    }
  }

  /** `replace_file` logs one message, whatever happens. */
  lemma ReplaceFileLogsBuilding(disk: Disk, file: TemplatedFile, c: Configuration, setName: string, folder: string)
    requires setName in c.sets && |c.before| > 0
    ensures ReplaceFileSpec(disk, file, c, setName, folder).log == [Entry(Trace, BuildingMessage(file))]
  {
  }

  /** A failing file at the head of the loop: its two entries, then the rest from the same disk. */
  lemma ProcessEachFailingHead(d: Disk, file: TemplatedFile, after: seq<TemplatedFile>,
                               c: Configuration, setName: string, folder: string)
    requires setName in c.sets && |c.before| > 0
    requires Decide(file, setName, c.sets[setName].whitelistOnly) == Process
    requires ReplaceFileSpec(d, file, c, setName, folder).result.Err?
    ensures ProcessEach(d, [file] + after, c, setName, folder)
         == Prefixed([Entry(Trace, BuildingMessage(file)),
                      Entry(Warn, FailureMessage(ReplaceFileSpec(d, file, c, setName, folder).result.error))],
                     ProcessEach(d, after, c, setName, folder))
  {
    var files := [file] + after;
    var o := ReplaceFileSpec(d, file, c, setName, folder);
    var warning := [Entry(Warn, FailureMessage(o.result.error))];
    assert files[0] == file && files[1..] == after;
    assert ProcessEach(d, files, c, setName, folder) == Prefixed(o.log + warning, ProcessEach(o.disk, after, c, setName, folder));
    ReplaceFileEffect(d, file, c, setName, folder);
    ReplaceFileLogsBuilding(d, file, c, setName, folder);
    assert o.log + warning == [Entry(Trace, BuildingMessage(file)), Entry(Warn, FailureMessage(o.result.error))];
  }

  /**
   * A file that fails, wherever it stands, adds exactly its `building` trace
   * and a warning with the error, leaves the disk as it was, and the files
   * after it are still processed.
   */
  lemma ProcessFileFails(disk: Disk, before: seq<TemplatedFile>, file: TemplatedFile, after: seq<TemplatedFile>,
                         c: Configuration, setName: string, folder: string)
    requires setName in c.sets && |c.before| > 0
    requires Decide(file, setName, c.sets[setName].whitelistOnly) == Process
    requires ReplaceFileSpec(ProcessEach(disk, before, c, setName, folder).disk, file, c, setName, folder).result.Err?
    ensures var p := ProcessEach(disk, before, c, setName, folder);
      var e := ReplaceFileSpec(p.disk, file, c, setName, folder).result.error;
      ProcessEach(disk, before + [file] + after, c, setName, folder)
      == Prefixed(p.log + [Entry(Trace, BuildingMessage(file)), Entry(Warn, FailureMessage(e))],
                  ProcessEach(p.disk, after, c, setName, folder))
  {
    var p := ProcessEach(disk, before, c, setName, folder);
    var e := ReplaceFileSpec(p.disk, file, c, setName, folder).result.error;
    var entries := [Entry(Trace, BuildingMessage(file)), Entry(Warn, FailureMessage(e))];
    Associative(before, [file], after);
    ProcessEachAppend(disk, before, [file] + after, c, setName, folder);
    ProcessEachFailingHead(p.disk, file, after, c, setName, folder);
    PrefixedTwice(p.log, entries, ProcessEach(p.disk, after, c, setName, folder));
  }

  /** A run with a defined set fails only when its backup fails, with the backup's error. */
  lemma RunFailsOnlyInBackup(disk: Disk, c: Configuration, setName: string, folder: string)
    requires setName in c.sets && |c.before| > 0
    ensures RunSpec(disk, c, setName, folder).result.Err? <==>
      c.backup && BackupSpec(disk, c.files, folder).result.Err?
    ensures RunSpec(disk, c, setName, folder).result.Err? ==>
      RunSpec(disk, c, setName, folder) == BackupSpec(disk, c.files, folder)
  {
    ProcessNeverFails(disk, c.files, c, setName, folder);
    if c.backup {
      ProcessNeverFails(BackupSpec(disk, c.files, folder).disk, c.files, c, setName, folder);
    }
  }

  /** The output paths of the files the rule lets through. */
  ghost predicate WrittenBy(p: Path, disk: Disk, files: seq<TemplatedFile>, setName: string, whitelistOnly: bool)
  {
    exists j :: 0 <= j < |files| && Decide(files[j], setName, whitelistOnly) == Process
      && Resolve(disk.cwd, files[j].outputPath) == p
  }

  /** The two disks differ at p: a file there exists on only one of them, or holds different text. */
  ghost predicate Changed(d1: Disk, d2: Disk, p: Path)
  {
    (p in d1.files <==> p !in d2.files) || (p in d1.files && d1.files[p] != d2.files[p])
  }

  /**
   * The per-file loop writes only the outputs of files the rule lets
   * through: skipped files, templates and everything else stay as they were.
   */
  lemma {:induction false} ProcessFrame(disk: Disk, files: seq<TemplatedFile>, c: Configuration, setName: string, folder: string)
    requires setName in c.sets && |c.before| > 0 && Valid(disk)
    ensures var o := ProcessEach(disk, files, c, setName, folder);
      && Valid(o.disk) && o.disk.cwd == disk.cwd && o.disk.dirs == disk.dirs
      && forall p :: Changed(disk, o.disk, p) ==> WrittenBy(p, disk, files, setName, c.sets[setName].whitelistOnly)
    decreases |files|
  {
    if files != [] {
      var w := c.sets[setName].whitelistOnly;
      var d := if Decide(files[0], setName, w) == Process then ReplaceFileSpec(disk, files[0], c, setName, folder).disk else disk;
      FileFrame(disk, d, files[0], c, setName, folder);
      ProcessFrame(d, files[1..], c, setName, folder);
      var od := ProcessEach(d, files[1..], c, setName, folder).disk;
      assert ProcessEach(disk, files, c, setName, folder).disk == od;
      FrameCons(disk, d, od, files, setName, w);
    }
  }

  /** One file of the loop changes at most its own output, and only when the rule lets it through. */
  lemma FileFrame(disk: Disk, d: Disk, file: TemplatedFile, c: Configuration, setName: string, folder: string)
    requires setName in c.sets && |c.before| > 0 && Valid(disk)
    requires d == if Decide(file, setName, c.sets[setName].whitelistOnly) == Process then ReplaceFileSpec(disk, file, c, setName, folder).disk else disk
    ensures Valid(d) && d.cwd == disk.cwd && d.dirs == disk.dirs
    ensures forall p :: Changed(disk, d, p) ==>
      Decide(file, setName, c.sets[setName].whitelistOnly) == Process && Resolve(disk.cwd, file.outputPath) == p
  {
    ReplaceFileEffect(disk, file, c, setName, folder);
    if d != disk {
      WriteValid(disk, file.outputPath, d.files[Resolve(disk.cwd, file.outputPath)]);
    }
  }

  /** The changes of the first file and of the rest are changes the whole list may make. */
  lemma FrameCons(disk: Disk, d: Disk, od: Disk, files: seq<TemplatedFile>, setName: string, w: bool)
    requires files != [] && d.cwd == disk.cwd
    requires forall p :: Changed(disk, d, p) ==>
      Decide(files[0], setName, w) == Process && Resolve(disk.cwd, files[0].outputPath) == p
    requires forall p :: Changed(d, od, p) ==> WrittenBy(p, d, files[1..], setName, w)
    ensures forall p :: Changed(disk, od, p) ==> WrittenBy(p, disk, files, setName, w)
  {
    forall p | Changed(disk, od, p)
      ensures WrittenBy(p, disk, files, setName, w)
    {
      if Changed(d, od, p) {
        var j :| 0 <= j < |files[1..]| && Decide(files[1..][j], setName, w) == Process
          && Resolve(d.cwd, files[1..][j].outputPath) == p;
        assert files[1..][j] == files[j + 1];
      } else {
        assert Changed(disk, d, p);
      }
    }
  }

  lemma {:induction false} BackupEachLog(disk: Disk, files: seq<TemplatedFile>, backupFolder: string)
    ensures NoQuietEntries(BackupEach(disk, files, backupFolder).log)
    decreases |files|
  {
    if files != [] {
      var c := Canonicalize(disk, files[0].outputPath);
      if c.Ok? {
        var backupPath := Push(backupFolder, BackupName(c.value));
        var copied := Copy(disk, Display(c.value), backupPath);
        if copied.Ok? {
          BackupEachLog(copied.value, files[1..], backupFolder);
          NoQuietAppend([Entry(Trace, BackingUpMessage(files[0], backupPath))],
                        BackupEach(copied.value, files[1..], backupFolder).log);
        }
      }
    }
  }

  lemma {:induction false} ProcessLog(disk: Disk, files: seq<TemplatedFile>, c: Configuration, setName: string, folder: string)
    requires setName in c.sets && |c.before| > 0
    ensures NoQuietEntries(ProcessEach(disk, files, c, setName, folder).log)
    decreases |files|
  {
    if files != [] {
      var e := Decide(files[0], setName, c.sets[setName].whitelistOnly);
      if e != Process {
        ProcessLog(disk, files[1..], c, setName, folder);
        NoQuietAppend([Entry(Trace, SkipMessage(e, setName, files[0].outputPath))],
                      ProcessEach(disk, files[1..], c, setName, folder).log);
      } else {
        var o := ReplaceFileSpec(disk, files[0], c, setName, folder);
        var warning := if o.result.Err? then [Entry(Warn, FailureMessage(o.result.error))] else [];
        ProcessLog(o.disk, files[1..], c, setName, folder);
        NoQuietAppend(o.log, warning);
        NoQuietAppend(o.log + warning, ProcessEach(o.disk, files[1..], c, setName, folder).log);
      }
    }
  }

  /** Every message of a run is logged at Warn or Trace, never at None. */
  lemma RunLog(disk: Disk, c: Configuration, setName: string, folder: string)
    requires setName in c.sets && |c.before| > 0
    ensures NoQuietEntries(RunSpec(disk, c, setName, folder).log)
  {
    var bf := BackupFolder(folder);
    var created := CreateDir(disk, bf);
    BackupEachLog(disk, c.files, bf);
    if created.Ok? {
      BackupEachLog(created.value, c.files, bf);
    }
    var b := BackupSpec(disk, c.files, folder);
    ProcessLog(disk, c.files, c, setName, folder);
    ProcessLog(b.disk, c.files, c, setName, folder);
    NoQuietAppend(b.log, ProcessEach(b.disk, c.files, c, setName, folder).log);
  }

  /**
   * A run without backup over a single file the rule lets through, whose
   * template reads, whose keys all have values and whose output can be
   * written, leaves the output holding the substituted template.
   */
  lemma RunOneFile(disk: Disk, c: Configuration, setName: string, folder: string)
    requires setName in c.sets && |c.before| > 0 && !c.backup && |c.files| == 1
    requires Decide(c.files[0], setName, c.sets[setName].whitelistOnly) == Process
    requires Read(disk, Push(folder, c.files[0].template)).Ok?
    requires Substitute(Read(disk, Push(folder, c.files[0].template)).value, Delims(c), c.sets[setName].mapping).Ok?
    requires Write(disk, c.files[0].outputPath,
                   Substitute(Read(disk, Push(folder, c.files[0].template)).value, Delims(c), c.sets[setName].mapping).value).Ok?
    ensures var o := RunSpec(disk, c, setName, folder);
      && o.result == Ok(())
      && Read(o.disk, c.files[0].outputPath)
         == Ok(Substitute(Read(disk, Push(folder, c.files[0].template)).value, Delims(c), c.sets[setName].mapping).value)
  {
    ReplaceFileEffect(disk, c.files[0], c, setName, folder);
    var r := ReplaceFileSpec(disk, c.files[0], c, setName, folder);
    assert r.result.Ok?;
    assert c.files[1..] == [];
    assert ProcessEach(r.disk, c.files[1..], c, setName, folder).disk == r.disk;
    assert RunSpec(disk, c, setName, folder).disk == r.disk;
    ProcessNeverFails(disk, c.files, c, setName, folder);
  }

  // ---------------------------------------------------------------- main_err and main

  /** The command line once parsed. */
  datatype Args = Args(run: Option<string>, listSets: bool, configDir: Option<string>, verbose: bool, quiet: bool)

  /** A TOML error: where it was found, if known, and its text. */
  datatype TomlError = TomlError(lineCol: Option<(nat, nat)>, text: string)

  /** Decimal digits of n. */
  function NatText(n: nat): (r: string)
    ensures |r| > 0
  {
    if n < 10 then ["0123456789"[n]] else NatText(n / 10) + ["0123456789"[n % 10]]
  }

  predicate AllDigits(s: string)
  {
    forall i :: 0 <= i < |s| ==> '0' <= s[i] <= '9'
  }

  /** The number a run of decimal digits denotes. */
  function DigitsValue(s: string): nat
    requires AllDigits(s)
  {
    if s == [] then 0 else DigitsValue(s[..|s| - 1]) * 10 + (s[|s| - 1] as int - '0' as int)
  }

  /** `{}` prints a number in decimal: reading the digits back gives the number. */
  lemma {:induction false} NatTextValue(n: nat)
    ensures AllDigits(NatText(n)) && DigitsValue(NatText(n)) == n
  {
    if n >= 10 {
      NatTextValue(n / 10);
      var r := NatText(n);
      assert r[..|r| - 1] == NatText(n / 10);
    }
  }

  function ConfigErrorHead(path: string): string
  {
    "Error in configuration file `" + path + "`"
  }

  function PositionText(e: TomlError): string
  {
    match e.lineCol
    case Some((line, col)) => " at line " + (NatText(line) + ", col " + NatText(col))
    case None => ""
  }

  function ConfigErrorDisplay(e: TomlError, path: string): string
  {
    ConfigErrorHead(path) + PositionText(e) + (":\n" + e.text)
  }

  /**
   * A configuration error names the file first and ends with the parser's own
   * text on a line of its own; a position, when known, comes right after the name.
   */
  lemma ConfigErrorDisplayParts(e: TomlError, path: string)
    ensures var head := ConfigErrorHead(path);
      var m := ConfigErrorDisplay(e, path);
      && |head| + |e.text| + 2 <= |m| && m[..|head|] == head
      && m[|m| - |e.text| - 2..] == ":\n" + e.text
      && (e.lineCol.None? <==> |m| == |head| + |e.text| + 2)
      && (e.lineCol.Some? ==> m[|head|..|head| + 9] == " at line ")
  {
    var head, position, tail := ConfigErrorHead(path), PositionText(e), ":\n" + e.text;
    Pieces(head, position, tail);
    ShiftSlice(head, position, tail, 0, |tail|);
    Whole(tail);
    if e.lineCol.Some? {
      var rest := PositionText(e)[9..];
      assert position == " at line " + rest;
      Associative(head, position, tail);
      SliceAfter(head, position + tail, 0, 9);
      Pieces(" at line ", rest, tail);
    }
  }

  /** The configuration directory: `--config`, else the working directory. */
  function ConfigFolder(args: Args): string
  {
    match args.configDir
    case Some(dir) => dir
    case None => "."
  }

  function ConfigPath(args: Args): string
  {
    Push(ConfigFolder(args), "config.toml")
  }

  function UsingMessage(folder: string): string
  {
    "using configuration directory `" + folder + "`"
  }

  /**
   * `--config` naming a regular file: `config.toml` is then read through
   * that file, which fails with "Not a directory".
   */
  lemma ConfigDirIsFile(disk: Disk, args: Args)
    requires Valid(disk) && args.configDir.Some?
    requires Resolve(disk.cwd, args.configDir.value) in disk.files
    requires LookupError(disk, Resolve(disk.cwd, args.configDir.value)) == Option.None
    ensures Read(disk, ConfigPath(args)) == Err(NotADirectory)
    ensures FailureMessage(Io(Read(disk, ConfigPath(args)).error)) == "Not a directory (os error 20)"
  {
    assert NormalName("config.toml");
    ReadThroughFile(disk, args.configDir.value, "config.toml");
  }

  /** Every configuration the parser accepts has a non-empty `template-before`. */
  ghost predicate BeforeNonEmpty(parse: string -> Result<Configuration, TomlError>)
  {
    forall s :: parse(s).Ok? ==> |parse(s).value.before| > 0
  }

  /**
   * `main_err`: read and parse `config.toml`; `--list-sets` lists the sets
   * (and wins over `--run`); `--run` runs the set; with neither nothing happens.
   */
  method MainErr(disk: Disk, args: Args, parse: string -> Result<Configuration, TomlError>)
    returns (o: Outcome, listed: seq<string>)
    requires BeforeNonEmpty(parse)
    ensures var entry := Entry(Trace, UsingMessage(ConfigFolder(args)));
      |o.log| > 0 && o.log[0] == entry
    ensures NoQuietEntries(o.log)
    ensures Read(disk, ConfigPath(args)).Err? ==>
      o == Outcome(Err(Io(Read(disk, ConfigPath(args)).error)), disk, o.log[..1]) && listed == []
    ensures Read(disk, ConfigPath(args)).Ok? && parse(Read(disk, ConfigPath(args)).value).Err? ==>
      o.result == Err(ConfigInvalid(ConfigErrorDisplay(parse(Read(disk, ConfigPath(args)).value).error, ConfigPath(args))))
      && o.disk == disk && listed == []
    ensures Read(disk, ConfigPath(args)).Ok? && parse(Read(disk, ConfigPath(args)).value).Ok? ==>
      var c := parse(Read(disk, ConfigPath(args)).value).value;
      && (args.listSets ==> o.result == Ok(()) && o.disk == disk && |o.log| == 1 && Enumerates(listed, c.sets))
      && (!args.listSets ==> listed == [])
      && (!args.listSets && args.run.None? ==> o.result == Ok(()) && o.disk == disk && |o.log| == 1)
      && (!args.listSets && args.run.Some? && args.run.value in c.sets ==>
            o == Prefixed(o.log[..1], RunSpec(disk, c, args.run.value, ConfigFolder(args))))
      && (!args.listSets && args.run.Some? && args.run.value !in c.sets ==>
            o.result.Err? && o.result.error.SetNotDefined? && Enumerates(o.result.error.available, c.sets)
            && o.disk == disk && |o.log| == 1)
  {
    var folder := ConfigFolder(args);
    var entry := Entry(Trace, UsingMessage(folder));
    var configPath := Push(folder, "config.toml");
    var read := Read(disk, configPath);
    listed := [];
    if read.Err? {
      return Outcome(Err(Io(read.error)), disk, [entry]), [];
    }
    var parsed := parse(read.value);
    if parsed.Err? {
      return Outcome(Err(ConfigInvalid(ConfigErrorDisplay(parsed.error, configPath))), disk, [entry]), [];
    }
    var c := parsed.value;
    if args.listSets {
      listed := SetNames(c.sets);
      return Outcome(Ok(()), disk, [entry]), listed;
    }
    if args.run.Some? {
      var r := Run(disk, c, args.run.value, folder);
      if args.run.value in c.sets {
        RunLog(disk, c, args.run.value, folder);
      }
      NoQuietAppend([entry], r.log);
      o := Prefixed([entry], r);
      assert o.log[..1] == [entry];
      return;
    }
    o := Outcome(Ok(()), disk, [entry]);
  }

  /** Everything printed, in order: the log lines the level lets through, the listed names, the error line. */
  function Output(o: Outcome, listed: seq<string>, level: LogLevel): seq<string>
  {
    Visible(o.log, level) + listed + (if o.result.Err? then ErrorLine(FailureMessage(o.result.error), level) else [])
  }

  /**
   * `main`: runs `main_err` and prints its outcome under the level the flags
   * choose. Quiet prints only the listed set names; verbose prints every log
   * message and the error.
   */
  method Program(disk: Disk, args: Args, parse: string -> Result<Configuration, TomlError>)
    returns (o: Outcome, listed: seq<string>, printed: seq<string>)
    requires BeforeNonEmpty(parse)
    ensures printed == Output(o, listed, LevelFromFlags(args.verbose, args.quiet))
    ensures args.quiet && !args.verbose ==> printed == listed
    ensures args.verbose ==> |printed| == |o.log| + |listed| + (if o.result.Err? then 1 else 0)
  {
    o, listed := MainErr(disk, args, parse);
    printed := Output(o, listed, LevelFromFlags(args.verbose, args.quiet));
    OutputByFlags(o, listed, args.verbose, args.quiet);
  }

  /** Quiet prints only the listed names; verbose prints every message, the names and the error. */
  lemma OutputByFlags(o: Outcome, listed: seq<string>, verbose: bool, quiet: bool)
    requires NoQuietEntries(o.log)
    ensures quiet && !verbose ==> Output(o, listed, LevelFromFlags(verbose, quiet)) == listed
    ensures verbose ==>
      |Output(o, listed, LevelFromFlags(verbose, quiet))| == |o.log| + |listed| + (if o.result.Err? then 1 else 0)
  {
    VisibleExtremes(o.log);
    if quiet && !verbose {
      assert Output(o, listed, LogLevel.None) == [] + listed + [];
    }
  }
}
