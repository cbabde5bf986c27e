/**
 * What the compiled pattern matches and how `captures_iter` walks a
 * template. The regex engine itself is not modelled: the pattern is the
 * literal `before`, the shortest key that contains no newline (`.` does not
 * match '\n', `*?` is lazy), then the literal `after`; the leftmost start
 * wins, and the next search resumes at the end of the previous match.
 */
module Matching {
  import opened Wrappers
  import opened Pattern

  /** One match: the span [start, end) and the captured `key`. */
  datatype Token = Token(start: nat, end: nat, key: string)

  predicate OccursAt(t: string, i: nat, p: string)
  {
    i + |p| <= |t| && t[i..i + |p|] == p
  }

  /**
   * The regex matches t[m.start..m.end] with capture m.key: the delimiters
   * around the key, no newline in the key, and no earlier `after` inside it
   * (so the lazy capture stops at the first one).
   */
  ghost predicate IsMatch(t: string, d: Delimiters, m: Token)
  {
    var open := m.start + |d.before|;
    var close := open + |m.key|;
    && close + |d.after| == m.end <= |t|
    && OccursAt(t, m.start, d.before)
    && t[open..close] == m.key
    && OccursAt(t, close, d.after)
    && '\n' !in m.key
    && forall k :: open <= k < close ==> !OccursAt(t, k, d.after)
  }

  /** The first `after` at or beyond j that is reached without crossing a newline. */
  function FindClose(t: string, j: nat, after: string): (r: Option<nat>)
    requires j <= |t|
    ensures r.Some? ==>
      && j <= r.value <= |t|
      && OccursAt(t, r.value, after)
      && '\n' !in t[j..r.value]
      && forall k :: j <= k < r.value ==> !OccursAt(t, k, after)
    ensures r.None? ==>
      forall k :: j <= k <= |t| && OccursAt(t, k, after) ==> '\n' in t[j..k]
    decreases |t| - j
  {
    if OccursAt(t, j, after) then Some(j)
    else if j == |t| || t[j] == '\n' then None
    else
      var r := FindClose(t, j + 1, after);
      assert r.Some? ==> t[j..r.value] == [t[j]] + t[j + 1..r.value];
      assert forall k :: j + 1 <= k <= |t| ==> t[j..k] == [t[j]] + t[j + 1..k];
      r
  }

  /** The match that starts exactly at s, if there is one. */
  function MatchAt(t: string, s: nat, d: Delimiters): (r: Option<Token>)
    requires s <= |t|
    ensures r.Some? ==> r.value.start == s && IsMatch(t, d, r.value)
    ensures forall m: Token :: m.start == s && IsMatch(t, d, m) ==> r == Some(m)
  {
    if !OccursAt(t, s, d.before) then None
    else
      var open := s + |d.before|;
      match FindClose(t, open, d.after)
      case None => None
      case Some(close) => Some(Token(s, close + |d.after|, t[open..close]))
  }

  /** The leftmost match that starts at or after `from` (the iterator's next step). */
  function NextMatch(t: string, from: nat, d: Delimiters): (r: Option<Token>)
    requires from <= |t|
    ensures r.Some? ==> from <= r.value.start && IsMatch(t, d, r.value)
    decreases |t| - from
  {
    match MatchAt(t, from, d)
    case Some(m) => Some(m)
    case None => if from == |t| then None else NextMatch(t, from + 1, d)
  }

  /** No match starts between `from` and the one the search finds. */
  lemma {:induction false} NextMatchLeftmost(t: string, from: nat, d: Delimiters, m: Token)
    requires from <= |t| && from <= m.start && IsMatch(t, d, m)
    ensures NextMatch(t, from, d).Some? && NextMatch(t, from, d).value.start <= m.start
    decreases |t| - from
  {
    if MatchAt(t, from, d).None? {
      assert m.start != from;
      NextMatchLeftmost(t, from + 1, d, m);
    }
  }

  /** Tokens lie in increasing, non-overlapping order between `from` and n. */
  predicate Ordered(ms: seq<Token>, from: nat, n: nat)
  {
    && (forall i :: 0 <= i < |ms| ==> ms[i].start <= ms[i].end <= n)
    && (|ms| > 0 ==> from <= ms[0].start)
    && (forall i :: 0 < i < |ms| ==> ms[i - 1].end <= ms[i].start)
  }

  /** Where the scan stands after the tokens ms: the end of the last one. */
  function Resume(ms: seq<Token>, from: nat): nat
  {
    if ms == [] then from else ms[|ms| - 1].end
  }

  /** Where the search for ms[i] began. */
  function SearchStart(ms: seq<Token>, from: nat, i: nat): nat
    requires i <= |ms|
  {
    if i == 0 then from else ms[i - 1].end
  }

  /**
   * Every match the iterator `captures_iter` yields from `from` on, in order.
   * A non-empty `before` makes each match non-empty, so the scan moves on.
   */
  function Matches(t: string, from: nat, d: Delimiters): (ms: seq<Token>)
    requires from <= |t| && |d.before| > 0
    ensures Ordered(ms, from, |t|)
    ensures forall i :: 0 <= i < |ms| ==> IsMatch(t, d, ms[i])
    decreases |t| - from
  {
    match NextMatch(t, from, d)
    case None => []
    case Some(m) =>
      assert OccursAt(t, m.start, d.before);
      var rest := Matches(t, m.end, d);
      PrependMatch(t, d, from, m, rest);
      [m] + rest
  }

  /** A match followed by later matches is an ordered run of matches. */
  lemma PrependMatch(t: string, d: Delimiters, from: nat, m: Token, rest: seq<Token>)
    requires from <= m.start && IsMatch(t, d, m)
    requires Ordered(rest, m.end, |t|) && forall i :: 0 <= i < |rest| ==> IsMatch(t, d, rest[i])
    ensures Ordered([m] + rest, from, |t|)
    ensures forall i :: 0 <= i < |[m] + rest| ==> IsMatch(t, d, ([m] + rest)[i])
  {
    assert forall i :: 0 < i < |[m] + rest| ==> ([m] + rest)[i] == rest[i - 1];
  }

  /** The first token is the leftmost match from `from` on. */
  lemma LeftmostFirstToken(t: string, from: nat, d: Delimiters, m: Token)
    requires from <= |t| && |d.before| > 0
    requires |Matches(t, from, d)| > 0 && IsMatch(t, d, m) && from <= m.start
    ensures Matches(t, from, d)[0].start <= m.start
  {
    var m0 := NextMatch(t, from, d).value;
    MatchesStep(t, from, d, m0);
    NextMatchLeftmost(t, from, d, m);
  }

  /** The tokens after the first are those of the scan resumed at its end. */
  lemma MatchesShift(t: string, from: nat, d: Delimiters, i: nat)
    requires from <= |t| && |d.before| > 0
    requires 0 < i < |Matches(t, from, d)|
    ensures NextMatch(t, from, d).Some?
    ensures var e := NextMatch(t, from, d).value.end;
      && e <= |t|
      && i - 1 < |Matches(t, e, d)|
      && Matches(t, from, d)[i] == Matches(t, e, d)[i - 1]
      && SearchStart(Matches(t, from, d), from, i) == SearchStart(Matches(t, e, d), e, i - 1)
  {
    var m0 := NextMatch(t, from, d).value;
    MatchesStep(t, from, d, m0);
  }

  lemma {:induction false} LeftmostAt(t: string, from: nat, d: Delimiters, i: nat, m: Token)
    requires from <= |t| && |d.before| > 0
    requires i < |Matches(t, from, d)| && IsMatch(t, d, m)
    requires SearchStart(Matches(t, from, d), from, i) <= m.start
    ensures Matches(t, from, d)[i].start <= m.start
    decreases i
  {
    if i == 0 {
      LeftmostFirstToken(t, from, d, m);
    } else {
      MatchesShift(t, from, d, i);
      LeftmostAt(t, NextMatch(t, from, d).value.end, d, i - 1, m);
    }
  }

  /**
   * The scan is leftmost-first: each token is the leftmost match at or after
   * the point where its search began.
   */
  lemma MatchesLeftmostFirst(t: string, from: nat, d: Delimiters)
    requires from <= |t| && |d.before| > 0
    ensures var ms := Matches(t, from, d);
      forall i, m :: 0 <= i < |ms| && IsMatch(t, d, m) && SearchStart(ms, from, i) <= m.start
        ==> ms[i].start <= m.start
  {
    var ms := Matches(t, from, d);
    forall i, m | 0 <= i < |ms| && IsMatch(t, d, m) && SearchStart(ms, from, i) <= m.start
      ensures ms[i].start <= m.start
    {
      LeftmostAt(t, from, d, i, m);
    }
  }

  /** The scan is complete: no match starts at or after the end of the last token. */
  lemma {:induction false} MatchesComplete(t: string, from: nat, d: Delimiters)
    requires from <= |t| && |d.before| > 0
    ensures var ms := Matches(t, from, d);
      forall m :: IsMatch(t, d, m) ==> m.start < Resume(ms, from)
    decreases |t| - from
  {
    var n := NextMatch(t, from, d);
    if n.Some? {
      var m0 := n.value;
      MatchesStep(t, from, d, m0);
      var rest := Matches(t, m0.end, d);
      MatchesComplete(t, m0.end, d);
      assert rest != [] ==> Resume(Matches(t, from, d), from) == Resume(rest, m0.end);
    } else {
      forall m | IsMatch(t, d, m)
        ensures m.start < from
      {
        if from <= m.start {
          NextMatchLeftmost(t, from, d, m);
        }
      }
    }
  }

  /** A match holds a closing delimiter, so a text without one has no match. */
  lemma MatchHasClose(t: string, d: Delimiters, m: Token)
    requires IsMatch(t, d, m) && |d.after| > 0
    ensures d.after[0] in t
  {
    var close := m.start + |d.before| + |m.key|;
    assert t[close] == t[close..close + |d.after|][0];
  }

  /** At most one match starts at a given position. */
  lemma MatchUnique(t: string, d: Delimiters, m1: Token, m2: Token)
    requires IsMatch(t, d, m1) && IsMatch(t, d, m2) && m1.start == m2.start
    ensures m1 == m2
  {
    assert MatchAt(t, m1.start, d) == Some(m1);
  }

  /** A match with no opening delimiter before it (from `from` on) is the next one found. */
  lemma NextMatchFinds(t: string, from: nat, d: Delimiters, m: Token)
    requires from <= m.start && IsMatch(t, d, m)
    requires forall s :: from <= s < m.start ==> !OccursAt(t, s, d.before)
    ensures NextMatch(t, from, d) == Some(m)
  {
    assert m.start <= |t|;
    NextMatchLeftmost(t, from, d, m);
    var r := NextMatch(t, from, d).value;
    assert OccursAt(t, r.start, d.before);
    MatchUnique(t, d, r, m);
  }

  lemma MatchesStep(t: string, from: nat, d: Delimiters, m: Token)
    requires from <= |t| && |d.before| > 0 && NextMatch(t, from, d) == Some(m)
    ensures m.end <= |t| && Matches(t, from, d) == [m] + Matches(t, m.end, d)
  {
    assert OccursAt(t, m.start, d.before);
  }

  /** Without an opening delimiter from `from` on, the scan yields nothing more. */
  lemma MatchesNone(t: string, from: nat, d: Delimiters)
    requires from <= |t| && |d.before| > 0
    requires forall s :: from <= s <= |t| ==> !OccursAt(t, s, d.before)
    ensures Matches(t, from, d) == []
  {
    var n := NextMatch(t, from, d);
    assert n.Some? ==> OccursAt(t, n.value.start, d.before);
  }

  /** Where the first character of p does not occur, p does not start. */
  lemma NotOccurringIn(t: string, a: nat, b: nat, p: string)
    requires |p| > 0 && a <= b <= |t| && p[0] !in t[a..b]
    ensures forall s :: a <= s < b ==> !OccursAt(t, s, p)
  {
    forall s | a <= s < b
      ensures !OccursAt(t, s, p)
    {
      assert t[a..b][s - a] == t[s];
      assert t[s] != p[0];
    }
  }
}
