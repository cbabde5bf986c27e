/**
 * Unix paths as the program builds and resolves them: `PathBuf::push`,
 * lexical resolution against a working directory, and the text of a
 * canonical path. A resolved path is the list of its components below the
 * root.
 */
module Paths {
  import opened Text

  /** The components of an absolute path below `/`; [] is the root. */
  type Path = seq<string>

  /** A component of a canonical path: not empty, not `.` or `..`, no `/`. */
  predicate NormalName(n: string)
  {
    n != "" && n != "." && n != ".." && '/' !in n
  }

  predicate Normal(p: Path)
  {
    forall i :: 0 <= i < |p| ==> NormalName(p[i])
  }

  predicate Absolute(s: string)
  {
    |s| > 0 && s[0] == '/'
  }

  /**
   * `PathBuf::push` on Unix: an absolute argument replaces the buffer, a
   * relative one is appended after a `/` unless the buffer is empty or
   * already ends with one.
   */
  function Push(base: string, s: string): string
  {
    if Absolute(s) then s
    else if |base| == 0 || base[|base| - 1] == '/' then base + s
    else base + "/" + s
  }

  /** One component of a path text applied to a directory. */
  function Step(p: Path, seg: string): Path
  {
    if seg == "" || seg == "." then p
    else if seg == ".." then (if p == [] then [] else p[..|p| - 1])
    else p + [seg]
  }

  /** The directory reached from p by following the components segs in turn. */
  function Normalize(p: Path, segs: seq<string>): (r: Path)
    decreases |segs|
  {
    if segs == [] then p else Normalize(Step(p, segs[0]), segs[1..])
  }

  /** The path a text names, relative paths being taken from cwd. */
  function Resolve(cwd: Path, s: string): Path
  {
    Normalize(if Absolute(s) then [] else cwd, Split(s, '/'))
  }

  /** The text after the last `/` of a path text (all of it when there is none). */
  function LastSegment(s: string): string
  {
    var segs := Split(s, '/');
    segs[|segs| - 1]
  }

  /** The text ends in `.` or `..`: its target is reached by a directory step. */
  predicate DotText(s: string)
  {
    LastSegment(s) == "." || LastSegment(s) == ".."
  }

  /**
   * The text can only name a directory: it ends in `/`, `.` or `..`. A
   * regular file named this way fails with "Not a directory".
   */
  predicate DirectoryText(s: string)
  {
    LastSegment(s) == "" || DotText(s)
  }

  /** The text of a canonical path, as `canonicalize` returns it. */
  function Display(p: Path): string
  {
    "/" + Join(p, "/")
  }

  lemma {:induction false} NormalizeKeepsNormal(p: Path, segs: seq<string>)
    requires Normal(p) && NoneContains(segs, '/')
    ensures Normal(Normalize(p, segs))
    decreases |segs|
  {
    if segs != [] {
      assert Normal(Step(p, segs[0]));
      assert NoneContains(segs[1..], '/');
      NormalizeKeepsNormal(Step(p, segs[0]), segs[1..]);
    }
  }

  /** Resolving always yields a canonical component list. */
  lemma ResolveNormal(cwd: Path, s: string)
    requires Normal(cwd)
    ensures Normal(Resolve(cwd, s))
  {
    SplitNoSeparator(s, '/');
    NormalizeKeepsNormal(if Absolute(s) then [] else cwd, Split(s, '/'));
  }

  lemma {:induction false} SplitNoSeparator(s: string, c: char)
    ensures NoneContains(Split(s, c), c)
    decreases |s|
  {
    if s != [] {
      SplitNoSeparator(s[1..], c);
    }
  }

  lemma {:induction false} NormalizeAppend(p: Path, xs: seq<string>, ys: seq<string>)
    ensures Normalize(p, xs + ys) == Normalize(Normalize(p, xs), ys)
    decreases |xs|
  {
    if xs == [] {
      assert xs + ys == ys;
    } else {
      assert (xs + ys)[0] == xs[0] && (xs + ys)[1..] == xs[1..] + ys;
      NormalizeAppend(Step(p, xs[0]), xs[1..], ys);
    }
  }

  /** Normal components are simply appended. */
  lemma {:induction false} NormalizeNormal(p: Path, q: Path)
    requires Normal(q)
    ensures Normalize(p, q) == p + q
    decreases |q|
  {
    if q != [] {
      assert Normal(q[1..]);
      NormalizeNormal(p + [q[0]], q[1..]);
      assert p + [q[0]] + q[1..] == p + q;
    }
  }

  /** The text of a canonical path resolves back to it, from any directory. */
  lemma ResolveDisplay(cwd: Path, p: Path)
    requires Normal(p)
    ensures Resolve(cwd, Display(p)) == p
  {
    var s := Display(p);
    assert s == [] + ['/'] + Join(p, "/");
    SplitAt([], '/', Join(p, "/"));
    if p == [] {
      assert Join(p, "/") == [] && Split([], '/') == [[]];
      assert Split(s, '/') == [[], []];
      assert Normalize([], [[]]) == [];
      assert Normalize([], [[], []]) == Normalize([], [[]]);
    } else {
      assert NoneContains(p, '/');
      SplitJoin(p, '/');
      NormalizeNormal([], p);
    }
  }

  /** The empty text leads to the working directory. */
  lemma ResolveEmpty(cwd: Path)
    ensures Resolve(cwd, "") == cwd
  {
    assert Split("", '/') == [[]];
    assert Normalize(cwd, [[]]) == Normalize(cwd, []);
  }

  /** The text of a canonical path other than the root ends in its last component. */
  lemma LastSegmentDisplay(p: Path)
    requires Normal(p) && p != []
    ensures LastSegment(Display(p)) == p[|p| - 1]
  {
    assert Display(p) == [] + ['/'] + Join(p, "/");
    SplitAt([], '/', Join(p, "/"));
    assert NoneContains(p, '/');
    SplitJoin(p, '/');
  }

  /** Pushing a normal name gives a text ending in that name. */
  lemma LastSegmentPushName(base: string, name: string)
    requires NormalName(name)
    ensures LastSegment(Push(base, name)) == name
  {
    SplitWhole(name, '/');
    assert !Absolute(name) by { assert name[0] in name; }
    if |base| == 0 {
      assert Push(base, name) == name;
    } else if base[|base| - 1] == '/' {
      var b := base[..|base| - 1];
      assert Push(base, name) == b + ['/'] + name;
      SplitAt(b, '/', name);
    } else {
      assert Push(base, name) == base + ['/'] + name;
      SplitAt(base, '/', name);
    }
  }

  /** A final `/` or `/.` leads where the text without it leads, and asks for a directory. */
  lemma ResolveDirectorySuffix(cwd: Path, s: string, seg: string)
    requires s != "" && (seg == "" || seg == ".")
    ensures Resolve(cwd, s + "/" + seg) == Resolve(cwd, s)
    ensures LastSegment(s + "/" + seg) == seg
  {
    var start := if Absolute(s) then [] else cwd;
    assert (s + "/" + seg)[0] == s[0];
    assert s + "/" + seg == s + ['/'] + seg;
    SplitAt(s, '/', seg);
    SplitWhole(seg, '/');
    NormalizeAppend(start, Split(s, '/'), [seg]);
    assert Normalize(Normalize(start, Split(s, '/')), [seg]) == Step(Normalize(start, Split(s, '/')), seg);
  }

  /** A text ending in `/` resolves like the text without it. */
  lemma ResolveTrailingSlash(start: Path, b: string, s: string)
    ensures Normalize(start, Split(b + ['/'] + s, '/')) == Normalize(Normalize(start, Split(b, '/')), Split(s, '/'))
  {
    SplitAt(b, '/', s);
    NormalizeAppend(start, Split(b, '/'), Split(s, '/'));
  }

  lemma PushOntoEmpty(cwd: Path, base: string, s: string)
    requires !Absolute(s) && |base| == 0
    ensures Resolve(cwd, Push(base, s)) == Normalize(Resolve(cwd, base), Split(s, '/'))
  {
    assert Split(base, '/') == [[]];
    assert Normalize(cwd, [[]]) == Normalize(cwd, []) == cwd;
    assert Push(base, s) == s;
  }

  lemma PushAfterSlash(cwd: Path, base: string, s: string)
    requires !Absolute(s) && |base| > 0 && base[|base| - 1] == '/'
    ensures Resolve(cwd, Push(base, s)) == Normalize(Resolve(cwd, base), Split(s, '/'))
  {
    var start := if Absolute(base) then [] else cwd;
    var b := base[..|base| - 1];
    DropTrailingSlash(start, base, b);
    PushedAfterSlash(base, s, b);
    ResolveTrailingSlash(start, b, s);
  }

  lemma PushedAfterSlash(base: string, s: string, b: string)
    requires !Absolute(s) && |base| > 0 && b == base[..|base| - 1] && base[|base| - 1] == '/'
    ensures Push(base, s) == b + ['/'] + s && Absolute(Push(base, s)) == Absolute(base)
  {
    assert Push(base, s) == b + ['/'] + s;
    assert Push(base, s)[0] == base[0];
  }

  /** A final `/` adds nothing to where a path text leads. */
  lemma DropTrailingSlash(start: Path, base: string, b: string)
    requires |base| > 0 && b == base[..|base| - 1] && base[|base| - 1] == '/'
    ensures Normalize(start, Split(base, '/')) == Normalize(start, Split(b, '/'))
  {
    assert base == b + ['/'] + [];
    ResolveTrailingSlash(start, b, []);
    assert Normalize(Normalize(start, Split(b, '/')), [[]]) == Normalize(start, Split(b, '/'));
  }

  lemma PushWithSlash(cwd: Path, base: string, s: string)
    requires !Absolute(s) && |base| > 0 && base[|base| - 1] != '/'
    ensures Resolve(cwd, Push(base, s)) == Normalize(Resolve(cwd, base), Split(s, '/'))
  {
    var start := if Absolute(base) then [] else cwd;
    assert Push(base, s) == base + ['/'] + s;
    assert Push(base, s)[0] == base[0];
    ResolveTrailingSlash(start, base, s);
  }

  /**
   * Pushing a relative text onto a path text resolves to the components of
   * the text followed from where the path text leads; an absolute one
   * resolves on its own.
   */
  lemma ResolvePush(cwd: Path, base: string, s: string)
    ensures Absolute(s) ==> Resolve(cwd, Push(base, s)) == Resolve(cwd, s)
    ensures !Absolute(s) ==> Resolve(cwd, Push(base, s)) == Normalize(Resolve(cwd, base), Split(s, '/'))
  {
    if !Absolute(s) {
      if |base| == 0 {
        PushOntoEmpty(cwd, base, s);
      } else if base[|base| - 1] == '/' {
        PushAfterSlash(cwd, base, s);
      } else {
        PushWithSlash(cwd, base, s);
      }
    }
  }

  /** Pushing one normal name onto a path text adds that component. */
  lemma ResolvePushName(cwd: Path, base: string, name: string)
    requires NormalName(name)
    ensures Resolve(cwd, Push(base, name)) == Resolve(cwd, base) + [name]
  {
    ResolvePush(cwd, base, name);
    SplitWhole(name, '/');
  }
}
