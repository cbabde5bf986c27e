/**
 * The token pattern built from the two configured delimiters
 * (`get_replacement_regex`): the escaped `template-before`, a lazy capture
 * named `key`, and the escaped `template-after`.
 */
module Pattern {
  import opened Wrappers

  /** The configured pair `template-before` / `template-after`. */
  datatype Delimiters = Delimiters(before: string, after: string)

  /** The characters the regex crate's `escape` puts a backslash in front of. */
  predicate IsMeta(c: char)
  {
    || c == '\\' || c == '.' || c == '+' || c == '*' || c == '?'
    || c == '(' || c == ')' || c == '|' || c == '[' || c == ']'
    || c == '{' || c == '}' || c == '^' || c == '$' || c == '#'
    || c == '&' || c == '-' || c == '~'
  }

  /** `regex::escape`: every metacharacter is preceded by a backslash. */
  function Escape(s: string): (r: string)
    ensures |s| <= |r| <= 2 * |s|
  {
    if s == [] then []
    else (if IsMeta(s[0]) then ['\\', s[0]] else [s[0]]) + Escape(s[1..])
  }

  /**
   * Reads a literal from the front of regex text: an escaped character
   * stands for itself, an ordinary character for itself, and the first bare
   * metacharacter ends the literal. Returns the literal and the rest.
   */
  function ReadLiteral(r: string): (res: (string, string))
    ensures |res.1| <= |r|
  {
    if r == [] then ([], [])
    else if r[0] == '\\' && |r| >= 2 then
      var (lit, rest) := ReadLiteral(r[2..]);
      ([r[1]] + lit, rest)
    else if IsMeta(r[0]) then ([], r)
    else
      var (lit, rest) := ReadLiteral(r[1..]);
      ([r[0]] + lit, rest)
  }

  /** The capture group between the two escaped delimiters. */
  const KeyGroup: string := "(?P<key>.*?)"

  /** The regex text `get_replacement_regex` formats. */
  function RegexSource(d: Delimiters): string
  {
    Escape(d.before) + KeyGroup + Escape(d.after)
  }

  /**
   * Splits regex text of the shape `literal (?P<key>.*?) literal` back into
   * its two literals; None when the text has another shape.
   */
  function ParseSource(r: string): (res: Option<Delimiters>)
  {
    var (before, rest) := ReadLiteral(r);
    if |rest| >= |KeyGroup| && rest[..|KeyGroup|] == KeyGroup then
      var (after, end) := ReadLiteral(rest[|KeyGroup|..]);
      if end == [] then Some(Delimiters(before, after)) else None
    else None
  }

  /**
   * Escaping makes the delimiter literal: reading the escaped text back as a
   * literal yields the delimiter, and stops exactly at the following bare
   * metacharacter (or at the end).
   */
  lemma {:induction false} ReadLiteralOfEscape(s: string, tail: string)
    requires tail == [] || (IsMeta(tail[0]) && tail[0] != '\\')
    ensures ReadLiteral(Escape(s) + tail) == (s, tail)
  {
    if s == [] {
      assert Escape(s) + tail == tail;
    } else {
      ReadLiteralOfEscape(s[1..], tail);
      EscapeStep(s[0], s[1..], tail);
      assert [s[0]] + s[1..] == s;
    }
  }

  /** Reading back one more escaped character extends the literal by it. */
  lemma EscapeStep(c: char, rest: string, tail: string)
    requires ReadLiteral(Escape(rest) + tail) == (rest, tail)
    ensures ReadLiteral(Escape([c] + rest) + tail) == ([c] + rest, tail)
  {
    var e := Escape(rest) + tail;
    assert ([c] + rest)[1..] == rest;
    if IsMeta(c) {
      assert Escape([c] + rest) + tail == ['\\', c] + e;
      ReadEscaped(c, e);
    } else {
      assert Escape([c] + rest) + tail == [c] + e;
      ReadPlain(c, e);
    }
  }

  /** An escaped character is read as itself, and the literal goes on. */
  lemma ReadEscaped(c: char, e: string)
    ensures ReadLiteral(['\\', c] + e) == ([c] + ReadLiteral(e).0, ReadLiteral(e).1)
  {
    assert (['\\', c] + e)[2..] == e;
  }

  /** An ordinary character is read as itself, and the literal goes on. */
  lemma ReadPlain(c: char, e: string)
    requires !IsMeta(c)
    ensures ReadLiteral([c] + e) == ([c] + ReadLiteral(e).0, ReadLiteral(e).1)
  {
    assert ([c] + e)[1..] == e;
  }

  /**
   * The regex text holds the two delimiters as literals around the capture
   * group and nothing else: parsing it recovers exactly the configuration.
   */
  lemma RegexSourceParses(d: Delimiters)
    ensures ParseSource(RegexSource(d)) == Some(d)
  {
    var r := RegexSource(d);
    assert r == Escape(d.before) + (KeyGroup + Escape(d.after));
    ReadLiteralOfEscape(d.before, KeyGroup + Escape(d.after));
    var rest := KeyGroup + Escape(d.after);
    assert rest[..|KeyGroup|] == KeyGroup;
    assert rest[|KeyGroup|..] == Escape(d.after);
    ReadLiteralOfEscape(d.after, []);
    assert Escape(d.after) + [] == Escape(d.after);
  }

  /** Distinct delimiter pairs give distinct patterns. */
  lemma RegexSourceInjective(d1: Delimiters, d2: Delimiters)
    requires RegexSource(d1) == RegexSource(d2)
    ensures d1 == d2
  {
    RegexSourceParses(d1);
    RegexSourceParses(d2);
  }
}
