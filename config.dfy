/**
 * The configuration as the program holds it once parsed, and the decisions
 * taken from it before any file is touched: whether a set exists (and the
 * names listed when it does not), and whether a file takes part in a run
 * with a given set.
 */
module Config {
  import opened Wrappers
  import opened Text

  /** A named set of key/value replacements. */
  datatype ReplacementSet = ReplacementSet(whitelistOnly: bool, mapping: map<string, string>)

  /** A file to build: where it goes, its template, and the sets it accepts. */
  datatype TemplatedFile = TemplatedFile(outputPath: string, template: string, whitelist: Option<seq<string>>)

  datatype Configuration = Configuration(
    before: string,
    after: string,
    files: seq<TemplatedFile>,
    sets: map<string, ReplacementSet>,
    backup: bool)

  /** Defaults for fields the configuration leaves out. */
  const DefaultBackup := true
  const DefaultWhitelistOnly := false

  /** What the run does with one file. */
  datatype Eligibility = Process | NotWhitelisted | NoWhitelist

  /** The per-file rule: a whitelist must name the set; without one the set must not demand it. */
  function Decide(file: TemplatedFile, setName: string, whitelistOnly: bool): (e: Eligibility)
  {
    match file.whitelist
    case Some(names) => if setName in names then Process else NotWhitelisted
    case None => if whitelistOnly then NoWhitelist else Process
  }

  /** The message logged for a skipped file. */
  function SkipMessage(e: Eligibility, setName: string, outputPath: string): string
  {
    match e
    case NotWhitelisted => "set `" + setName + "` is  not whitelisted for file `" + outputPath + "`, skipping"
    case NoWhitelist => "set `" + setName + "` requires whitelist only, but `" + outputPath
                        + "` does not specify a whitelist, skipping"
    case Process => ""
  }

  /** A file is processed exactly when its whitelist names the set, or it has none and the set allows that. */
  lemma DecideProcesses(file: TemplatedFile, setName: string, whitelistOnly: bool)
    ensures Decide(file, setName, whitelistOnly) == Process <==>
      (file.whitelist.Some? && setName in file.whitelist.value) || (file.whitelist.None? && !whitelistOnly)
    ensures Decide(file, setName, whitelistOnly) == NotWhitelisted <==>
      file.whitelist.Some? && setName !in file.whitelist.value
    ensures Decide(file, setName, whitelistOnly) == NoWhitelist <==> file.whitelist.None? && whitelistOnly
  {
  }

  /** A whitelist overrides `whitelist-only`: the flag matters only to files without one. */
  lemma WhitelistOverrides(file: TemplatedFile, setName: string)
    requires file.whitelist.Some?
    ensures Decide(file, setName, true) == Decide(file, setName, false)
  {
  }

  predicate NoDuplicates(names: seq<string>)
  {
    forall i, j :: 0 <= i < j < |names| ==> names[i] != names[j]
  }

  /** names lists every key of the sets once, in some order. */
  predicate Enumerates(names: seq<string>, sets: map<string, ReplacementSet>)
  {
    && NoDuplicates(names)
    && (forall k :: k in names ==> k in sets)
    && (forall k :: k in sets ==> k in names)
  }

  /**
   * The set names in the map's iteration order, which is unspecified: the
   * loop takes the keys in any order.
   */
  method SetNames(sets: map<string, ReplacementSet>) returns (names: seq<string>)
    ensures Enumerates(names, sets)
    ensures |names| == |sets.Keys|
  {
    names := [];
    var remaining := sets.Keys;
    while remaining != {}
      invariant remaining <= sets.Keys
      invariant NoDuplicates(names)
      invariant forall k :: k in names ==> k in sets && k !in remaining
      invariant forall k :: k in sets ==> k in names || k in remaining
      invariant |names| + |remaining| == |sets.Keys|
      decreases |remaining|
    {
      var k :| k in remaining;
      names := names + [k];
      remaining := remaining - {k};
    }
  }

  /** The part of the message before the list of names. */
  function NotDefinedPrefix(setName: string): string
  {
    "Set `" + setName + "` not defined in config\nThe available sets are: "
  }

  /** The error for a set the configuration does not define. */
  function NotDefinedMessage(setName: string, available: seq<string>): string
  {
    NotDefinedPrefix(setName) + Join(available, ", ")
  }

  /** Every available set name appears in the error message, at a known place. */
  lemma NotDefinedListsSets(setName: string, available: seq<string>, i: nat)
    requires i < |available|
    ensures |NotDefinedPrefix(setName)| + Offset(available, ", ", i) + |available[i]|
      <= |NotDefinedMessage(setName, available)|
    ensures NotDefinedMessage(setName, available)[|NotDefinedPrefix(setName)| + Offset(available, ", ", i)
      ..|NotDefinedPrefix(setName)| + Offset(available, ", ", i) + |available[i]|] == available[i]
  {
    JoinContains(available, ", ", i);
    var o := Offset(available, ", ", i);
    SliceAfter(NotDefinedPrefix(setName), Join(available, ", "), o, |available[i]|);
  }
}
