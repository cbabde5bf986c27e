/**
 * The log filter: a message is printed when its level is at most the level
 * chosen on the command line, in the order None < Warn < Trace, and an
 * error ending the run is printed unless the program is quiet.
 */
module Logging {
  import opened Text

  datatype LogLevel = None | Warn | Trace

  /** The position of a level in the declared order. */
  function Rank(l: LogLevel): nat
  {
    match l
    case None => 0
    case Warn => 1
    case Trace => 2
  }

  /** The derived `<=` on levels. */
  predicate AtMost(a: LogLevel, b: LogLevel)
  {
    Rank(a) <= Rank(b)
  }

  /** The level the flags select: verbose wins over quiet, the default warns. */
  function LevelFromFlags(verbose: bool, quiet: bool): (l: LogLevel)
    ensures verbose <==> l == Trace
    ensures l == None <==> !verbose && quiet
  {
    if verbose then Trace else if quiet then None else Warn
  }

  /** Whether `log` prints a message of level `level` under the configured level. */
  predicate Printed(level: LogLevel, configured: LogLevel)
  {
    AtMost(level, configured)
  }

  /** The name a level displays as. */
  function Name(l: LogLevel): (r: string)
    ensures |r| > 0
  {
    match l
    case None => "None"
    case Warn => "Warn"
    case Trace => "Trace"
  }

  /** The line `log` prints. */
  function Line(level: LogLevel, message: string): string
  {
    "[" + Name(level) + "] " + message
  }

  datatype Entry = Entry(level: LogLevel, message: string)

  /** The lines printed for a run's log messages, in order. */
  function Visible(entries: seq<Entry>, configured: LogLevel): seq<string>
  {
    if entries == [] then [] else Shown(entries[0], configured) + Visible(entries[1..], configured)
  }

  /** The line printed for one message, if any. */
  function Shown(e: Entry, configured: LogLevel): seq<string>
  {
    if Printed(e.level, configured) then [Line(e.level, e.message)] else []
  }

  /** The line `main` prints for an error that ended the run, if any. */
  function ErrorLine(error: string, configured: LogLevel): (r: seq<string>)
  {
    if configured != None then ["[Error] " + error] else []
  }

  /** `AtMost` is a total order on the three levels. */
  lemma LevelOrder(a: LogLevel, b: LogLevel, c: LogLevel)
    ensures AtMost(a, a)
    ensures AtMost(a, b) && AtMost(b, a) ==> a == b
    ensures AtMost(a, b) && AtMost(b, c) ==> AtMost(a, c)
    ensures AtMost(a, b) || AtMost(b, a)
    ensures AtMost(None, a) && AtMost(a, Trace)
  {
  }

  /** Printing is monotone: raising the configured level never hides a message. */
  lemma PrintedMonotone(level: LogLevel, c1: LogLevel, c2: LogLevel)
    requires AtMost(c1, c2) && Printed(level, c1)
    ensures Printed(level, c2)
  {
  }

  /** The flags decide exactly which message levels are printed. */
  lemma FlagsDecidePrinting(verbose: bool, quiet: bool, level: LogLevel)
    requires level != None
    ensures var c := LevelFromFlags(verbose, quiet);
      Printed(level, c) <==> (verbose || (!quiet && level == Warn))
  {
  }

  function Count(entries: seq<Entry>, configured: LogLevel): nat
  {
    if entries == [] then 0
    else (if Printed(entries[0].level, configured) then 1 else 0) + Count(entries[1..], configured)
  }

  /** One line per message whose level is at most the configured one. */
  lemma {:induction false} VisibleCount(entries: seq<Entry>, configured: LogLevel)
    ensures |Visible(entries, configured)| == Count(entries, configured) <= |entries|
  {
    if entries != [] {
      VisibleCount(entries[1..], configured);
    }
  }

  /** Visible lines of a log written in two parts are those of each part. */
  lemma {:induction false} VisibleAppend(a: seq<Entry>, b: seq<Entry>, configured: LogLevel)
    ensures Visible(a + b, configured) == Visible(a, configured) + Visible(b, configured)
  {
    if a == [] {
      assert a + b == b;
    } else {
      VisibleAppend(a[1..], b, configured);
      AppendCons(a, b, configured);
    }
  }

  lemma AppendCons(a: seq<Entry>, b: seq<Entry>, configured: LogLevel)
    requires a != []
    requires Visible(a[1..] + b, configured) == Visible(a[1..], configured) + Visible(b, configured)
    ensures Visible(a + b, configured) == Visible(a, configured) + Visible(b, configured)
  {
    ConsAppend(a, b);
    Associative(Shown(a[0], configured), Visible(a[1..], configured), Visible(b, configured));
  }

  /** No message is logged at level None: each one is a warning or a trace. */
  predicate NoQuietEntries(log: seq<Entry>)
  {
    forall i :: 0 <= i < |log| ==> log[i].level != None
  }

  lemma NoQuietAppend(a: seq<Entry>, b: seq<Entry>)
    requires NoQuietEntries(a) && NoQuietEntries(b)
    ensures NoQuietEntries(a + b)
  {
  }

  /** Under Trace every message is printed; quiet prints none of the Warn and Trace ones. */
  lemma {:induction false} VisibleExtremes(entries: seq<Entry>)
    requires NoQuietEntries(entries)
    ensures |Visible(entries, Trace)| == |entries|
    ensures Visible(entries, None) == []
  {
    if entries != [] {
      VisibleExtremes(entries[1..]);
    }
  }
}
