/**
 * The substitution engine (`replace_file`'s loop): every token of the
 * template is replaced by the value its key has in the chosen set, the text
 * between tokens is copied verbatim, and the first key the set lacks aborts
 * the file.
 */
module Substitution {
  import opened Wrappers
  import opened Pattern
  import opened Matching
  import opened Text

  /** The error `replace_file` reports: template path, missing key, set name. */
  datatype MissingKey = MissingKey(template: string, key: string, setName: string)

  /** All tokens of a template, in document order. */
  function Tokens(t: string, d: Delimiters): seq<Token>
    requires |d.before| > 0
  {
    Matches(t, 0, d)
  }

  predicate AllKeysIn(ms: seq<Token>, values: map<string, string>)
  {
    forall i :: 0 <= i < |ms| ==> ms[i].key in values
  }

  /**
   * The output built after the tokens ms: for each token, the verbatim text
   * since the previous token followed by the token's value.
   */
  function Assemble(t: string, ms: seq<Token>, values: map<string, string>): string
    requires Ordered(ms, 0, |t|) && AllKeysIn(ms, values)
  {
    if ms == [] then []
    else
      var init := ms[..|ms| - 1];
      var m := ms[|ms| - 1];
      Assemble(t, init, values) + t[Resume(init, 0)..m.start] + values[m.key]
  }

  /** The position of the first token, in document order, whose key is missing. */
  function FirstMissing(ms: seq<Token>, values: map<string, string>): (r: Option<nat>)
    ensures r.Some? ==>
      r.value < |ms| && ms[r.value].key !in values && AllKeysIn(ms[..r.value], values)
    ensures r.None? ==> AllKeysIn(ms, values)
  {
    if ms == [] then None
    else if ms[0].key !in values then Some(0)
    else
      match FirstMissing(ms[1..], values)
      case None => None
      case Some(i) =>
        assert ms[..i + 1] == [ms[0]] + ms[1..][..i];
        Some(i + 1)
  }

  /**
   * The text `replace_file` writes for template t, or the first key (in
   * document order) that the set lacks.
   */
  function Substitute(t: string, d: Delimiters, values: map<string, string>): Result<string, string>
    requires |d.before| > 0
  {
    var ms := Tokens(t, d);
    match FirstMissing(ms, values)
    case Some(i) => Err(ms[i].key)
    case None => Ok(Assemble(t, ms, values) + t[Resume(ms, 0)..])
  }

  /**
   * The substitution fails exactly when some token's key is missing, and
   * then it names a missing key all of whose predecessors are present.
   */
  lemma SubstituteFails(t: string, d: Delimiters, values: map<string, string>, ms: seq<Token>)
    requires |d.before| > 0 && ms == Tokens(t, d)
    ensures Substitute(t, d, values).Err? <==> exists i :: 0 <= i < |ms| && ms[i].key !in values
    ensures Substitute(t, d, values).Err? ==>
      Substitute(t, d, values).error !in values &&
      exists i :: 0 <= i < |ms| && ms[i].key == Substitute(t, d, values).error && AllKeysIn(ms[..i], values)
  {
  }

  /** Appending a token that lies beyond the cursor keeps the tokens ordered. */
  lemma OrderedSnoc(ms: seq<Token>, m: Token, n: nat)
    requires Ordered(ms, 0, n) && Resume(ms, 0) <= m.start <= m.end <= n
    ensures Ordered(ms + [m], 0, n) && Resume(ms + [m], 0) == m.end
    ensures (ms + [m])[..|ms|] == ms
  {
    assert (ms + [m])[..|ms|] == ms;
  }

  /** One more token: the output grows by the gap before it and its value. */
  lemma AssembleSnoc(t: string, ms: seq<Token>, m: Token, values: map<string, string>)
    requires Ordered(ms, 0, |t|) && Resume(ms, 0) <= m.start <= m.end <= |t|
    requires AllKeysIn(ms, values) && m.key in values
    ensures Ordered(ms + [m], 0, |t|) && Resume(ms + [m], 0) == m.end
    ensures AllKeysIn(ms + [m], values)
    ensures Assemble(t, ms + [m], values)
         == Assemble(t, ms, values) + t[Resume(ms, 0)..m.start] + values[m.key]
  {
    OrderedSnoc(ms, m, |t|);
  }

  /** The substitution of the remaining tokens, once `done` has been handled. */
  lemma SubstituteAbortsAt(t: string, d: Delimiters, values: map<string, string>,
                           done: seq<Token>, m: Token, rest: seq<Token>)
    requires |d.before| > 0
    requires Tokens(t, d) == done + [m] + rest
    requires AllKeysIn(done, values) && m.key !in values
    ensures Substitute(t, d, values) == Err(m.key)
  {
    var ms := Tokens(t, d);
    FirstMissingAt(ms, values, done, m, rest);
    assert ms[|done|] == m;
  }

  /** The first missing key is the one after a prefix whose keys are all present. */
  lemma FirstMissingAt(ms: seq<Token>, values: map<string, string>, done: seq<Token>, m: Token, rest: seq<Token>)
    requires ms == done + [m] + rest
    requires AllKeysIn(done, values) && m.key !in values
    ensures FirstMissing(ms, values) == Some(|done|)
  {
    var r := FirstMissing(ms, values);
    assert ms[|done|] == m;
    assert ms[..|done|] == done;
    assert r.Some?;
    assert r.value <= |done|;
  }

  lemma SubstituteCompletes(t: string, d: Delimiters, values: map<string, string>, done: seq<Token>)
    requires |d.before| > 0
    requires Tokens(t, d) == done && AllKeysIn(done, values)
    ensures Substitute(t, d, values) == Ok(Assemble(t, done, values) + t[Resume(done, 0)..])
  {
  }

  /**
   * `replace_file`'s loop: walks the matches as `captures_iter` yields them,
   * looks each key up before anything of the token is appended, appends the
   * verbatim gap and the value, and moves the tail cursor to the end of the
   * match; after the last match the remaining tail is appended.
   */
  method ReplaceTemplate(templatePath: string, template: string, d: Delimiters,
                         setName: string, mapping: map<string, string>)
    returns (r: Result<string, MissingKey>)
    requires |d.before| > 0
    ensures r.Ok? <==> Substitute(template, d, mapping).Ok?
    ensures r.Ok? ==> r.value == Substitute(template, d, mapping).value
    ensures r.Err? ==> r.error == MissingKey(templatePath, Substitute(template, d, mapping).error, setName)
  {
    var output: string := [];
    var tailIdx: nat := 0;
    ghost var done: seq<Token> := [];
    var captures := NextMatch(template, 0, d);
    while captures.Some?
      invariant tailIdx <= |template|
      invariant Ordered(done, 0, |template|)
      invariant tailIdx == Resume(done, 0)
      invariant Tokens(template, d) == done + Matches(template, tailIdx, d)
      invariant captures == NextMatch(template, tailIdx, d)
      invariant AllKeysIn(done, mapping)
      invariant output == Assemble(template, done, mapping)
      decreases |template| - tailIdx
    {
      var m := captures.value;
      ScanStep(template, d, mapping, done, m);
      if m.key !in mapping {
        return Err(MissingKey(templatePath, m.key, setName));
      }
      output := output + template[tailIdx..m.start];
      output := output + mapping[m.key];
      tailIdx := m.end;
      done := done + [m];
      captures := NextMatch(template, tailIdx, d);
    }
    assert done + [] == done;
    SubstituteCompletes(template, d, mapping, done);
    output := output + template[tailIdx..];
    r := Ok(output);
  }

  /**
   * One step of the loop: the next match either names a missing key, which
   * is then the substitution's error, or extends the tokens handled so far.
   */
  lemma ScanStep(t: string, d: Delimiters, values: map<string, string>, done: seq<Token>, m: Token)
    requires |d.before| > 0 && Ordered(done, 0, |t|) && AllKeysIn(done, values)
    requires Tokens(t, d) == done + Matches(t, Resume(done, 0), d)
    requires NextMatch(t, Resume(done, 0), d) == Some(m)
    ensures Resume(done, 0) <= m.start <= m.end <= |t|
    ensures m.key !in values ==> Substitute(t, d, values) == Err(m.key)
    ensures m.key in values ==>
      && Ordered(done + [m], 0, |t|) && Resume(done + [m], 0) == m.end && AllKeysIn(done + [m], values)
      && Tokens(t, d) == (done + [m]) + Matches(t, m.end, d)
      && Assemble(t, done + [m], values) == Assemble(t, done, values) + t[Resume(done, 0)..m.start] + values[m.key]
  {
    MatchesStep(t, Resume(done, 0), d, m);
    var rest := Matches(t, m.end, d);
    Associative(done, [m], rest);
    if m.key !in values {
      SubstituteAbortsAt(t, d, values, done, m, rest);
    } else {
      AssembleSnoc(t, done, m, values);
    }
  }

  /** Total length of the matched spans: delimiters and keys. */
  function MatchedLength(ms: seq<Token>): int
  {
    if ms == [] then 0 else MatchedLength(ms[..|ms| - 1]) + (ms[|ms| - 1].end - ms[|ms| - 1].start)
  }

  /** Total length of the values the tokens are replaced by. */
  function ValueLength(ms: seq<Token>, values: map<string, string>): nat
    requires AllKeysIn(ms, values)
  {
    if ms == [] then 0 else ValueLength(ms[..|ms| - 1], values) + |values[ms[|ms| - 1].key]|
  }

  lemma {:induction false} AssembleLength(t: string, ms: seq<Token>, values: map<string, string>)
    requires Ordered(ms, 0, |t|) && AllKeysIn(ms, values)
    ensures |Assemble(t, ms, values)| == Resume(ms, 0) - MatchedLength(ms) + ValueLength(ms, values)
  {
    if ms != [] {
      AssembleLength(t, ms[..|ms| - 1], values);
    }
  }

  /**
   * Length law: the output is the template with every matched span replaced
   * by its value, |output| = |template| - sum of match lengths + sum of value
   * lengths.
   */
  lemma SubstituteLength(t: string, d: Delimiters, values: map<string, string>)
    requires |d.before| > 0 && Substitute(t, d, values).Ok?
    ensures AllKeysIn(Tokens(t, d), values)
    ensures |Substitute(t, d, values).value|
         == |t| - MatchedLength(Tokens(t, d)) + ValueLength(Tokens(t, d), values)
  {
    AssembleLength(t, Tokens(t, d), values);
  }

  /** A matched span is `before`, the key, then `after`. */
  lemma MatchText(t: string, d: Delimiters, m: Token)
    requires IsMatch(t, d, m)
    ensures t[m.start..m.end] == d.before + m.key + d.after
  {
    var open := m.start + |d.before|;
    var close := open + |m.key|;
    assert t[m.start..m.end] == t[m.start..open] + t[open..close] + t[close..m.end];
  }

  lemma SlicesJoin(t: string, a: nat, b: nat, c: nat)
    requires a <= b <= c <= |t|
    ensures t[..a] + t[a..b] + t[b..c] == t[..c]
  {
  }

  lemma {:induction false} AssembleOwnText(t: string, ms: seq<Token>, values: map<string, string>)
    requires Ordered(ms, 0, |t|) && AllKeysIn(ms, values)
    requires forall i :: 0 <= i < |ms| ==> values[ms[i].key] == t[ms[i].start..ms[i].end]
    ensures Assemble(t, ms, values) == t[..Resume(ms, 0)]
  {
    if ms != [] {
      var init := ms[..|ms| - 1];
      var m := ms[|ms| - 1];
      assert forall i :: 0 <= i < |init| ==> init[i] == ms[i];
      AssembleOwnText(t, init, values);
      SlicesJoin(t, Resume(init, 0), m.start, m.end);
    }
  }

  /**
   * Verbatim passthrough: when every key is replaced by its own token text,
   * the output is the template, character for character.
   */
  lemma SubstituteOwnTextIsIdentity(t: string, d: Delimiters, values: map<string, string>)
    requires |d.before| > 0
    requires forall k :: k in values ==> values[k] == d.before + k + d.after
    requires AllKeysIn(Tokens(t, d), values)
    ensures Substitute(t, d, values) == Ok(t)
  {
    TokensOwnText(t, d, values);
    TokensKeepText(t, d, values);
  }

  /** When every token's value is its own text, substitution gives back the template. */
  lemma TokensKeepText(t: string, d: Delimiters, values: map<string, string>)
    requires |d.before| > 0
    requires AllKeysIn(Tokens(t, d), values)
    requires var ms := Tokens(t, d);
      forall i :: 0 <= i < |ms| ==> values[ms[i].key] == t[ms[i].start..ms[i].end]
    ensures Substitute(t, d, values) == Ok(t)
  {
    var ms := Tokens(t, d);
    OwnTextOutput(t, ms, values);
    SubstituteCompletes(t, d, values, ms);
  }

  lemma OwnTextOutput(t: string, ms: seq<Token>, values: map<string, string>)
    requires Ordered(ms, 0, |t|) && AllKeysIn(ms, values)
    requires forall i :: 0 <= i < |ms| ==> values[ms[i].key] == t[ms[i].start..ms[i].end]
    ensures Assemble(t, ms, values) + t[Resume(ms, 0)..] == t
  {
    AssembleOwnText(t, ms, values);
    assert t[..Resume(ms, 0)] + t[Resume(ms, 0)..] == t;
  }

  /** Under such a set, each token's value is the token's own text. */
  lemma TokensOwnText(t: string, d: Delimiters, values: map<string, string>)
    requires |d.before| > 0
    requires forall k :: k in values ==> values[k] == d.before + k + d.after
    requires AllKeysIn(Tokens(t, d), values)
    ensures var ms := Tokens(t, d);
      forall i :: 0 <= i < |ms| ==> values[ms[i].key] == t[ms[i].start..ms[i].end]
  {
    var ms := Tokens(t, d);
    forall i | 0 <= i < |ms|
      ensures values[ms[i].key] == t[ms[i].start..ms[i].end]
    {
      MatchText(t, d, ms[i]);
    }
  }

  /** A template without an opening delimiter comes out unchanged, whatever the set. */
  lemma NoOpeningDelimiterIsIdentity(t: string, d: Delimiters, values: map<string, string>)
    requires |d.before| > 0
    requires forall i :: 0 <= i <= |t| ==> !OccursAt(t, i, d.before)
    ensures Substitute(t, d, values) == Ok(t)
  {
    assert NextMatch(t, 0, d).None?;
    assert Tokens(t, d) == [];
    assert FirstMissing([], values).None?;
    assert Assemble(t, [], values) + t[Resume([], 0)..] == t;
  }

  /**
   * A template in which the pattern matches nowhere comes out unchanged,
   * whatever the set: an opening delimiter with no closing one after it,
   * or with a newline first, is copied like any other text.
   */
  lemma NoMatchIsIdentity(t: string, d: Delimiters, values: map<string, string>)
    requires |d.before| > 0
    requires forall m: Token :: !IsMatch(t, d, m)
    ensures Substitute(t, d, values) == Ok(t)
  {
    assert NextMatch(t, 0, d).None?;
    SubstituteCompletes(t, d, values, []);
    assert Assemble(t, [], values) + t[Resume([], 0)..] == t;
  }

  /**
   * The same output read front to back: the gap before the first token, its
   * value, then the rest of the template from the end of that token on.
   */
  function Expand(t: string, ms: seq<Token>, from: nat, values: map<string, string>): string
    requires Ordered(ms, from, |t|) && AllKeysIn(ms, values) && from <= |t|
  {
    if ms == [] then t[from..]
    else t[from..ms[0].start] + values[ms[0].key] + Expand(t, ms[1..], ms[0].end, values)
  }

  lemma OrderedSplit(a: seq<Token>, b: seq<Token>, n: nat, values: map<string, string>)
    requires Ordered(a + b, 0, n) && AllKeysIn(a + b, values)
    ensures Ordered(a, 0, n) && AllKeysIn(a, values) && Resume(a, 0) <= n
    ensures Ordered(b, Resume(a, 0), n) && AllKeysIn(b, values)
  {
    assert forall i :: 0 <= i < |a| ==> a[i] == (a + b)[i];
    assert forall i :: 0 <= i < |b| ==> b[i] == (a + b)[|a| + i];
  }

  lemma {:induction false} AssembleThenExpand(t: string, a: seq<Token>, b: seq<Token>, values: map<string, string>)
    requires Ordered(a + b, 0, |t|) && AllKeysIn(a + b, values)
    ensures Ordered(a, 0, |t|) && AllKeysIn(a, values) && Resume(a, 0) <= |t|
    ensures Ordered(b, Resume(a, 0), |t|) && AllKeysIn(b, values)
    ensures Assemble(t, a + b, values) + t[Resume(a + b, 0)..]
         == Assemble(t, a, values) + Expand(t, b, Resume(a, 0), values)
    decreases |b|
  {
    OrderedSplit(a, b, |t|, values);
    if b == [] {
      AppendEmpty(a);
    } else {
      MoveHead(a, b);
      AssembleThenExpand(t, a + [b[0]], b[1..], values);
      AssembleExpandStep(t, a, b, values);
    }
  }

  /** One more token moved from the expanded part to the assembled part. */
  lemma AssembleExpandStep(t: string, a: seq<Token>, b: seq<Token>, values: map<string, string>)
    requires b != [] && a + b == (a + [b[0]]) + b[1..]
    requires Ordered(a, 0, |t|) && AllKeysIn(a, values) && Resume(a, 0) <= |t|
    requires Ordered(b, Resume(a, 0), |t|) && AllKeysIn(b, values)
    requires Ordered(a + [b[0]] + b[1..], 0, |t|) && AllKeysIn(a + [b[0]] + b[1..], values)
    requires Ordered(a + [b[0]], 0, |t|) && AllKeysIn(a + [b[0]], values) && Resume(a + [b[0]], 0) <= |t|
    requires Ordered(b[1..], Resume(a + [b[0]], 0), |t|) && AllKeysIn(b[1..], values)
    requires Assemble(t, a + [b[0]] + b[1..], values) + t[Resume(a + [b[0]] + b[1..], 0)..]
          == Assemble(t, a + [b[0]], values) + Expand(t, b[1..], Resume(a + [b[0]], 0), values)
    ensures Assemble(t, a + b, values) + t[Resume(a + b, 0)..]
         == Assemble(t, a, values) + Expand(t, b, Resume(a, 0), values)
  {
    var m := b[0];
    var e := Expand(t, b[1..], m.end, values);
    AssembleThen(t, a, m, e, values);
  }

  /** The output after one more token, followed by some text e. */
  lemma AssembleThen(t: string, a: seq<Token>, m: Token, e: string, values: map<string, string>)
    requires Ordered(a, 0, |t|) && Resume(a, 0) <= m.start <= m.end <= |t|
    requires AllKeysIn(a, values) && m.key in values
    ensures Ordered(a + [m], 0, |t|) && AllKeysIn(a + [m], values)
    ensures Assemble(t, a + [m], values) + e
         == Assemble(t, a, values) + (t[Resume(a, 0)..m.start] + values[m.key] + e)
  {
    AssembleSnoc(t, a, m, values);
    var g, v := t[Resume(a, 0)..m.start], values[m.key];
    Associative(g, v, e);
    Associative(Assemble(t, a, values) + g, v, e);
    Associative(Assemble(t, a, values), g, v + e);
  }

  lemma AssembleExpands(t: string, ms: seq<Token>, values: map<string, string>)
    requires Ordered(ms, 0, |t|) && AllKeysIn(ms, values)
    ensures Assemble(t, ms, values) + t[Resume(ms, 0)..] == Expand(t, ms, 0, values)
  {
    assert [] + ms == ms;
    AssembleThenExpand(t, [], ms, values);
    assert Assemble(t, [], values) == [];
    assert [] + Expand(t, ms, 0, values) == Expand(t, ms, 0, values);
  }

  /** The substituted text, read front to back. */
  lemma SubstituteExpands(t: string, d: Delimiters, values: map<string, string>)
    requires |d.before| > 0 && AllKeysIn(Tokens(t, d), values)
    ensures Substitute(t, d, values) == Ok(Expand(t, Tokens(t, d), 0, values))
  {
    var ms := Tokens(t, d);
    SubstituteCompletes(t, d, values, ms);
    AssembleExpands(t, ms, values);
  }
}
