/**
 * Templates written out from their parts: the verbatim gaps and the keys
 * between the delimiters. Substituting such a template gives back the gaps
 * with the keys' values in between, the values themselves never being
 * scanned for tokens.
 */
module Rendering {
  import opened Wrappers
  import opened Pattern
  import opened Matching
  import opened Substitution

  /** gaps[0] before key[0] after gaps[1] ... before key[n-1] after gaps[n]. */
  function Render(gaps: seq<string>, keys: seq<string>, d: Delimiters): string
    requires |gaps| == |keys| + 1
    decreases |keys|
  {
    if keys == [] then gaps[0]
    else gaps[0] + (d.before + (keys[0] + (d.after + Render(gaps[1..], keys[1..], d))))
  }

  predicate KeysIn(keys: seq<string>, values: map<string, string>)
  {
    forall i :: 0 <= i < |keys| ==> keys[i] in values
  }

  /** gaps[0] value(key[0]) gaps[1] ... value(key[n-1]) gaps[n]. */
  function Fill(gaps: seq<string>, keys: seq<string>, values: map<string, string>): string
    requires |gaps| == |keys| + 1 && KeysIn(keys, values)
    decreases |keys|
  {
    if keys == [] then gaps[0]
    else gaps[0] + values[keys[0]] + Fill(gaps[1..], keys[1..], values)
  }

  /**
   * Parts the pattern reads back unambiguously, one gap and key at a time:
   * no gap holds the first character of `before`, no key holds a newline or
   * the first character of `after`.
   */
  predicate Plain(gaps: seq<string>, keys: seq<string>, d: Delimiters)
    decreases |keys|
  {
    && |d.before| > 0 && |d.after| > 0
    && |gaps| == |keys| + 1
    && d.before[0] !in gaps[0]
    && (keys != [] ==> '\n' !in keys[0] && d.after[0] !in keys[0] && Plain(gaps[1..], keys[1..], d))
  }

  /** The tokens of a rendering that begins at position pos. */
  function Placed(gaps: seq<string>, keys: seq<string>, d: Delimiters, pos: nat): seq<Token>
    requires |gaps| == |keys| + 1
    decreases |keys|
  {
    if keys == [] then []
    else
      var s := pos + |gaps[0]|;
      var e := s + |d.before| + |keys[0]| + |d.after|;
      [Token(s, e, keys[0])] + Placed(gaps[1..], keys[1..], d, e)
  }

  lemma {:induction false} PlacedKeys(gaps: seq<string>, keys: seq<string>, d: Delimiters, pos: nat)
    requires |gaps| == |keys| + 1
    ensures |Placed(gaps, keys, d, pos)| == |keys|
    ensures forall i :: 0 <= i < |keys| ==> Placed(gaps, keys, d, pos)[i].key == keys[i]
    decreases |keys|
  {
    if keys != [] {
      PlacedKeys(gaps[1..], keys[1..], d, pos + |gaps[0]| + |d.before| + |keys[0]| + |d.after|);
    }
  }

  /** A text that starts at pos with x, then y. */
  lemma SplitFront(t: string, pos: nat, x: string, y: string)
    requires pos <= |t| && t[pos..] == x + y
    ensures pos + |x| <= |t| && t[pos..pos + |x|] == x && t[pos + |x|..] == y
  {
    assert t[pos..pos + |x|] == t[pos..][..|x|];
    assert t[pos + |x|..] == t[pos..][|x|..];
  }

  /** Where each part of `g before k after rest` lies once it is written at pos. */
  lemma Layout(t: string, pos: nat, g: string, k: string, rest: string, d: Delimiters)
    requires pos <= |t| && t[pos..] == g + (d.before + (k + (d.after + rest)))
    ensures OccursAt(t, pos, g)
    ensures OccursAt(t, pos + |g|, d.before)
    ensures OccursAt(t, pos + |g| + |d.before|, k)
    ensures OccursAt(t, pos + |g| + |d.before| + |k|, d.after)
    ensures pos + |g| + |d.before| + |k| + |d.after| <= |t|
    ensures t[pos + |g| + |d.before| + |k| + |d.after|..] == rest
  {
    SplitFront(t, pos, g, d.before + (k + (d.after + rest)));
    SplitFront(t, pos + |g|, d.before, k + (d.after + rest));
    SplitFront(t, pos + |g| + |d.before|, k, d.after + rest);
    SplitFront(t, pos + |g| + |d.before| + |k|, d.after, rest);
  }

  /**
   * t holds a rendering from pos on, part by part: each gap, then `before`,
   * the key and `after`, and after the last key the last gap up to the end.
   */
  predicate LaidOut(t: string, pos: nat, gaps: seq<string>, keys: seq<string>, d: Delimiters)
    decreases |keys|
  {
    && pos <= |t| && |gaps| == |keys| + 1
    && if keys == [] then t[pos..] == gaps[0]
       else
         && OccursAt(t, pos, gaps[0])
         && OccursAt(t, pos + |gaps[0]|, d.before)
         && OccursAt(t, pos + |gaps[0]| + |d.before|, keys[0])
         && OccursAt(t, pos + |gaps[0]| + |d.before| + |keys[0]|, d.after)
         && LaidOut(t, pos + |gaps[0]| + |d.before| + |keys[0]| + |d.after|, gaps[1..], keys[1..], d)
  }

  /** A rendering written at pos is laid out part by part from pos. */
  lemma {:induction false} RenderLaidOut(t: string, pos: nat, gaps: seq<string>, keys: seq<string>, d: Delimiters)
    requires |gaps| == |keys| + 1 && pos <= |t| && t[pos..] == Render(gaps, keys, d)
    ensures LaidOut(t, pos, gaps, keys, d)
    decreases |keys|
  {
    if keys != [] {
      var e := pos + |gaps[0]| + |d.before| + |keys[0]| + |d.after|;
      var rest := Render(gaps[1..], keys[1..], d);
      assert t[pos..] == gaps[0] + (d.before + (keys[0] + (d.after + rest)));
      Layout(t, pos, gaps[0], keys[0], rest, d);
      RenderLaidOut(t, e, gaps[1..], keys[1..], d);
      LaidOutCons(t, pos, e, gaps, keys, d);
    }
  }

  /** The first gap and token in place, and the rest laid out after them. */
  lemma LaidOutCons(t: string, pos: nat, e: nat, gaps: seq<string>, keys: seq<string>, d: Delimiters)
    requires |gaps| == |keys| + 1 && keys != [] && pos <= |t|
    requires e == pos + |gaps[0]| + |d.before| + |keys[0]| + |d.after|
    requires OccursAt(t, pos, gaps[0]) && OccursAt(t, pos + |gaps[0]|, d.before)
    requires OccursAt(t, pos + |gaps[0]| + |d.before|, keys[0])
    requires OccursAt(t, pos + |gaps[0]| + |d.before| + |keys[0]|, d.after)
    requires LaidOut(t, e, gaps[1..], keys[1..], d)
    ensures LaidOut(t, pos, gaps, keys, d)
  {
  }

  lemma ScanGap(t: string, pos: nat, g: string, d: Delimiters)
    requires |d.before| > 0 && d.before[0] !in g
    requires pos <= |t| && t[pos..] == g
    ensures Matches(t, pos, d) == []
  {
    assert t[pos..|t|] == g;
    NotOccurringIn(t, pos, |t|, d.before);
    MatchesNone(t, pos, d);
  }

  /** The first written token is a match, and no `before` starts ahead of it. */
  lemma FirstTokenMatches(t: string, pos: nat, gaps: seq<string>, keys: seq<string>, d: Delimiters)
    requires keys != [] && Plain(gaps, keys, d) && LaidOut(t, pos, gaps, keys, d)
    ensures IsMatch(t, d, Token(pos + |gaps[0]|, pos + |gaps[0]| + |d.before| + |keys[0]| + |d.after|, keys[0]))
    ensures forall i :: pos <= i < pos + |gaps[0]| ==> !OccursAt(t, i, d.before)
  {
    var s := pos + |gaps[0]|;
    var open := s + |d.before|;
    var close := open + |keys[0]|;
    NotOccurringIn(t, pos, s, d.before);
    NotOccurringIn(t, open, close, d.after);
  }

  /** The scan of a laid-out rendering starts with its first written token. */
  lemma FirstTokenFound(t: string, pos: nat, e: nat, gaps: seq<string>, keys: seq<string>, d: Delimiters)
    requires keys != [] && Plain(gaps, keys, d) && LaidOut(t, pos, gaps, keys, d)
    requires e == pos + |gaps[0]| + |d.before| + |keys[0]| + |d.after|
    ensures e <= |t| && Matches(t, pos, d) == [Token(pos + |gaps[0]|, e, keys[0])] + Matches(t, e, d)
  {
    var m := Token(pos + |gaps[0]|, e, keys[0]);
    FirstTokenMatches(t, pos, gaps, keys, d);
    NextMatchFinds(t, pos, d, m);
    MatchesStep(t, pos, d, m);
  }

  /** The tokens of a rendering: its first token, then those of the rest. */
  lemma PlacedCons(gaps: seq<string>, keys: seq<string>, d: Delimiters, pos: nat, e: nat)
    requires |gaps| == |keys| + 1 && keys != []
    requires e == pos + |gaps[0]| + |d.before| + |keys[0]| + |d.after|
    ensures Placed(gaps, keys, d, pos) == [Token(pos + |gaps[0]|, e, keys[0])] + Placed(gaps[1..], keys[1..], d, e)
  {
  }

  /** One step of the scan: the first written token, then what the scan of the rest finds. */
  lemma ScanCons(t: string, pos: nat, e: nat, gaps: seq<string>, keys: seq<string>, d: Delimiters)
    requires keys != [] && Plain(gaps, keys, d) && LaidOut(t, pos, gaps, keys, d)
    requires e == pos + |gaps[0]| + |d.before| + |keys[0]| + |d.after|
    requires e <= |t| && Matches(t, e, d) == Placed(gaps[1..], keys[1..], d, e)
    ensures Matches(t, pos, d) == Placed(gaps, keys, d, pos)
  {
    var m := Token(pos + |gaps[0]|, e, keys[0]);
    FirstTokenFound(t, pos, e, gaps, keys, d);
    PlacedCons(gaps, keys, d, pos, e);
    var found, rest := Matches(t, pos, d), Matches(t, e, d);
    var placed, placedRest := Placed(gaps, keys, d, pos), Placed(gaps[1..], keys[1..], d, e);
    assert found == [m] + rest;
    assert placed == [m] + placedRest;
  }

  /** Scanning a laid-out rendering finds exactly the tokens it was written with. */
  lemma {:induction false} ScanLaidOut(t: string, pos: nat, gaps: seq<string>, keys: seq<string>, d: Delimiters)
    requires Plain(gaps, keys, d) && LaidOut(t, pos, gaps, keys, d)
    ensures Matches(t, pos, d) == Placed(gaps, keys, d, pos)
    decreases |keys|
  {
    if keys == [] {
      ScanGap(t, pos, gaps[0], d);
    } else {
      var e := pos + |gaps[0]| + |d.before| + |keys[0]| + |d.after|;
      ScanLaidOut(t, e, gaps[1..], keys[1..], d);
      ScanCons(t, pos, e, gaps, keys, d);
    }
  }

  /** One step of reading a rendering back: its first gap, its first value, then the rest. */
  lemma ExpandCons(t: string, pos: nat, e: nat, gaps: seq<string>, keys: seq<string>,
                   d: Delimiters, values: map<string, string>)
    requires |gaps| == |keys| + 1 && keys != [] && KeysIn(keys, values)
    requires e == pos + |gaps[0]| + |d.before| + |keys[0]| + |d.after| && e <= |t|
    requires OccursAt(t, pos, gaps[0])
    requires Ordered(Placed(gaps, keys, d, pos), pos, |t|) && AllKeysIn(Placed(gaps, keys, d, pos), values)
    requires Ordered(Placed(gaps[1..], keys[1..], d, e), e, |t|)
    requires AllKeysIn(Placed(gaps[1..], keys[1..], d, e), values) && KeysIn(keys[1..], values)
    requires Expand(t, Placed(gaps[1..], keys[1..], d, e), e, values) == Fill(gaps[1..], keys[1..], values)
    ensures Expand(t, Placed(gaps, keys, d, pos), pos, values) == Fill(gaps, keys, values)
  {
    var m := Token(pos + |gaps[0]|, e, keys[0]);
    PlacedCons(gaps, keys, d, pos, e);
    var placed, placedRest := Placed(gaps, keys, d, pos), Placed(gaps[1..], keys[1..], d, e);
    assert placed[0] == m && placed[1..] == placedRest;
    assert t[pos..m.start] == gaps[0];
  }

  /** Reading a rendering's own tokens front to back gives its fill. */
  lemma {:induction false} ExpandLaidOut(t: string, pos: nat, gaps: seq<string>, keys: seq<string>,
                                         d: Delimiters, values: map<string, string>)
    requires Plain(gaps, keys, d) && KeysIn(keys, values) && LaidOut(t, pos, gaps, keys, d)
    ensures Ordered(Placed(gaps, keys, d, pos), pos, |t|)
    ensures AllKeysIn(Placed(gaps, keys, d, pos), values)
    ensures Expand(t, Placed(gaps, keys, d, pos), pos, values) == Fill(gaps, keys, values)
    decreases |keys|
  {
    PlacedWellFormed(t, pos, gaps, keys, d, values);
    if keys != [] {
      var e := pos + |gaps[0]| + |d.before| + |keys[0]| + |d.after|;
      assert KeysIn(keys[1..], values);
      ExpandLaidOut(t, e, gaps[1..], keys[1..], d, values);
      ExpandCons(t, pos, e, gaps, keys, d, values);
    }
  }

  /** The tokens of a laid-out rendering are ordered and, when the keys have values, all have one. */
  lemma PlacedWellFormed(t: string, pos: nat, gaps: seq<string>, keys: seq<string>,
                         d: Delimiters, values: map<string, string>)
    requires Plain(gaps, keys, d) && KeysIn(keys, values) && LaidOut(t, pos, gaps, keys, d)
    ensures Ordered(Placed(gaps, keys, d, pos), pos, |t|)
    ensures AllKeysIn(Placed(gaps, keys, d, pos), values)
  {
    ScanLaidOut(t, pos, gaps, keys, d);
    PlacedKeys(gaps, keys, d, pos);
  }

  /** The tokens of a rendering are its placed tokens, carrying its keys in order. */
  lemma RenderedTokens(gaps: seq<string>, keys: seq<string>, d: Delimiters)
    requires |gaps| == |keys| + 1 && Plain(gaps, keys, d)
    ensures Tokens(Render(gaps, keys, d), d) == Placed(gaps, keys, d, 0)
    ensures |Placed(gaps, keys, d, 0)| == |keys|
    ensures forall i :: 0 <= i < |keys| ==> Placed(gaps, keys, d, 0)[i].key == keys[i]
  {
    var t := Render(gaps, keys, d);
    assert t[0..] == t;
    RenderLaidOut(t, 0, gaps, keys, d);
    ScanLaidOut(t, 0, gaps, keys, d);
    PlacedKeys(gaps, keys, d, 0);
  }

  /**
   * Substituting a rendering whose keys all have values gives its fill: the
   * values are copied without being scanned.
   */
  lemma RenderThenSubstitute(gaps: seq<string>, keys: seq<string>, d: Delimiters, values: map<string, string>)
    requires |gaps| == |keys| + 1 && Plain(gaps, keys, d) && KeysIn(keys, values)
    ensures Substitute(Render(gaps, keys, d), d, values) == Ok(Fill(gaps, keys, values))
  {
    var t := Render(gaps, keys, d);
    assert t[0..] == t;
    RenderedTokens(gaps, keys, d);
    RenderLaidOut(t, 0, gaps, keys, d);
    ExpandLaidOut(t, 0, gaps, keys, d, values);
    SubstituteExpands(t, d, values);
  }

  /**
   * Substituting a rendering with a key that has no value fails, naming the
   * first such key in written order.
   */
  lemma RenderMissingKey(gaps: seq<string>, keys: seq<string>, d: Delimiters, values: map<string, string>, i: nat)
    requires |gaps| == |keys| + 1 && Plain(gaps, keys, d)
    requires i < |keys| && keys[i] !in values && KeysIn(keys[..i], values)
    ensures Substitute(Render(gaps, keys, d), d, values) == Err(keys[i])
  {
    var t := Render(gaps, keys, d);
    RenderedTokens(gaps, keys, d);
    var ms := Placed(gaps, keys, d, 0);
    SplitAtMissing(ms, keys, values, i);
    SubstituteAbortsAt(t, d, values, ms[..i], ms[i], ms[i + 1..]);
  }

  /** Tokens carrying the given keys split around the i-th, all keys before it present. */
  lemma SplitAtMissing(ms: seq<Token>, keys: seq<string>, values: map<string, string>, i: nat)
    requires |ms| == |keys| && forall j :: 0 <= j < |keys| ==> ms[j].key == keys[j]
    requires i < |keys| && keys[i] !in values && KeysIn(keys[..i], values)
    ensures ms == ms[..i] + [ms[i]] + ms[i + 1..]
    ensures AllKeysIn(ms[..i], values) && ms[i].key !in values
  {
    assert ms == ms[..i] + [ms[i]] + ms[i + 1..];
    forall k | 0 <= k < i
      ensures ms[..i][k].key in values
    {
      assert keys[..i][k] == keys[k];
    }
  }
}
