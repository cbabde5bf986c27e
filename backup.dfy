/**
 * The name a file's backup gets: its canonical path without the root,
 * components joined with `.`, so that every backup sits directly in the
 * backup directory.
 */
module Backup {
  import opened Text
  import opened Paths

  /** The components after the root, joined with `.`. */
  function BackupName(canonical: Path): string
  {
    Join(canonical, ".")
  }

  lemma {:induction false} JoinAvoids(parts: seq<string>, sep: string, c: char)
    requires NoneContains(parts, c) && c !in sep
    ensures c !in Join(parts, sep)
    decreases |parts|
  {
    if |parts| > 1 {
      assert NoneContains(parts[1..], c);
      JoinAvoids(parts[1..], sep, c);
    }
  }

  lemma {:induction false} TotalLengthAtLeast(parts: seq<string>)
    requires forall i :: 0 <= i < |parts| ==> parts[i] != []
    ensures TotalLength(parts) >= |parts|
    decreases |parts|
  {
    if parts != [] {
      TotalLengthAtLeast(parts[1..]);
    }
  }

  /** The backup name of a file is a single, ordinary file name. */
  lemma BackupNameIsFileName(p: Path)
    requires Normal(p) && |p| > 0
    ensures NormalName(BackupName(p))
  {
    assert NoneContains(p, '/');
    JoinAvoids(p, ".", '/');
    if |p| > 1 {
      JoinLength(p, ".");
      TotalLengthAtLeast(p);
    }
  }

  /** Paths whose components have no `.` get distinct backup names. */
  lemma BackupNameInjective(p: Path, q: Path)
    requires |p| > 0 && |q| > 0 && NoneContains(p, '.') && NoneContains(q, '.')
    requires BackupName(p) == BackupName(q)
    ensures p == q
  {
    JoinInjective(p, q, '.');
  }

  /** `/a.b/c` and `/a/b.c` share the backup name `a.b.c`: the second copy overwrites the first. */
  lemma BackupNamesCollide(p: Path, q: Path)
    requires p == ["a.b", "c"] && q == ["a", "b.c"]
    ensures Normal(p) && Normal(q) && p != q
    ensures BackupName(p) == BackupName(q) == "a.b.c"
  {
    assert Join(p[1..], ".") == "c" && Join(q[1..], ".") == "b.c";
    assert p[0] != q[0];
  }
}
