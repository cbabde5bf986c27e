/** Worked examples of the substitution engine with `{{` / `}}` delimiters. */
module Scenarios {
  import opened Wrappers
  import opened Pattern
  import opened Matching
  import opened Substitution
  import opened Rendering
  import opened Text

  const Braces := Delimiters("{{", "}}")

  /** Adjacent tokens are two matches: the lazy key stops at the first `}}`. */
  lemma AdjacentTokensScan(t: string)
    requires t == "{{a}}{{b}}"
    ensures Tokens(t, Braces) == [Token(0, 5, "a"), Token(5, 10, "b")]
  {
    var m1, m2 := Token(0, 5, "a"), Token(5, 10, "b");
    AdjacentFirst(t);
    AdjacentSecond(t);
    MatchesStep(t, 0, Braces, m1);
    MatchesStep(t, 5, Braces, m2);
    MatchesNone(t, 10, Braces);
  }

  lemma AdjacentFirst(t: string)
    requires t == "{{a}}{{b}}"
    ensures NextMatch(t, 0, Braces) == Some(Token(0, 5, "a"))
  {
    assert t[2..4] == "a}" && !OccursAt(t, 2, "}}");
    NextMatchFinds(t, 0, Braces, Token(0, 5, "a"));
  }

  lemma AdjacentSecond(t: string)
    requires t == "{{a}}{{b}}"
    ensures NextMatch(t, 5, Braces) == Some(Token(5, 10, "b"))
  {
    assert t[7..9] == "b}" && !OccursAt(t, 7, "}}");
    NextMatchFinds(t, 5, Braces, Token(5, 10, "b"));
  }

  /** `{{a}}{{b}}` with a = X, b = Y gives XY: nothing is put between the values. */
  lemma AdjacentTokens(t: string, values: map<string, string>)
    requires t == "{{a}}{{b}}" && values == map["a" := "X", "b" := "Y"]
    ensures Substitute(t, Braces, values) == Ok("XY")
  {
    var ms := [Token(0, 5, "a"), Token(5, 10, "b")];
    AdjacentTokensScan(t);
    AdjacentAssemble(t, ms, values);
    SubstituteCompletes(t, Braces, values, ms);
  }

  lemma AdjacentAssemble(t: string, ms: seq<Token>, values: map<string, string>)
    requires t == "{{a}}{{b}}" && values == map["a" := "X", "b" := "Y"]
    requires ms == [Token(0, 5, "a"), Token(5, 10, "b")]
    ensures Ordered(ms, 0, |t|) && AllKeysIn(ms, values)
    ensures Assemble(t, ms, values) + t[Resume(ms, 0)..] == "XY"
  {
    assert ms[..1] == [ms[0]] && [ms[0]][..0] == [];
    assert Assemble(t, [ms[0]], values) == "X";
    assert Assemble(t, ms, values) == "X" + t[5..5] + "Y";
    assert Resume(ms, 0) == 10 && t[10..] == [];
  }

  lemma GreetingPlain(gaps: seq<string>, keys: seq<string>)
    requires gaps == ["Hello ", ", you are ", "."] && keys == ["name", "age"]
    ensures Plain(gaps, keys, Braces)
  {
    assert '{' !in gaps[0] && '{' !in gaps[1] && '{' !in gaps[2];
    assert '}' !in keys[0] && '}' !in keys[1];
  }

  lemma GreetingRender(t: string, gaps: seq<string>, keys: seq<string>)
    requires t == "Hello {{name}}, you are {{age}}."
    requires gaps == ["Hello ", ", you are ", "."] && keys == ["name", "age"]
    ensures |gaps| == |keys| + 1 && Render(gaps, keys, Braces) == t
  {
    var tail := ", you are {{age}}.";
    GreetingRenderTail(gaps[1..], keys[1..], tail);
    GreetingText(t, tail);
  }

  lemma GreetingText(t: string, tail: string)
    requires t == "Hello {{name}}, you are {{age}}." && tail == ", you are {{age}}."
    ensures t == "Hello " + ("{{" + ("name" + ("}}" + tail)))
  {
    assert "Hello {{name}}" == "Hello " + ("{{" + ("name" + "}}"));
    assert t == "Hello {{name}}" + tail;
    Associative("name", "}}", tail);
    Associative("{{", "name" + "}}", tail);
    Associative("Hello ", "{{" + ("name" + "}}"), tail);
  }

  lemma GreetingRenderTail(gaps: seq<string>, keys: seq<string>, t: string)
    requires gaps == [", you are ", "."] && keys == ["age"] && t == ", you are {{age}}."
    ensures |gaps| == |keys| + 1 && Render(gaps, keys, Braces) == t
  {
    assert Render(gaps[1..], keys[1..], Braces) == ".";
    assert t == ", you are " + "{{" + "age" + "}}" + ".";
  }

  lemma GreetingFill(gaps: seq<string>, keys: seq<string>, values: map<string, string>, out: string)
    requires gaps == ["Hello ", ", you are ", "."] && keys == ["name", "age"]
    requires values == map["name" := "Ada", "age" := "36"]
    requires out == "Hello Ada, you are 36."
    ensures |gaps| == |keys| + 1 && KeysIn(keys, values) && Fill(gaps, keys, values) == out
  {
    assert KeysIn(keys, values);
    assert Fill(gaps[2..], keys[2..], values) == ".";
    assert Fill(gaps[1..], keys[1..], values) == ", you are " + "36" + ".";
  }

  /** The greeting example: gaps are copied verbatim around both values. */
  lemma Greeting(t: string, values: map<string, string>, out: string)
    requires t == "Hello {{name}}, you are {{age}}."
    requires values == map["name" := "Ada", "age" := "36"]
    requires out == "Hello Ada, you are 36."
    ensures Substitute(t, Braces, values) == Ok(out)
  {
    var gaps, keys := ["Hello ", ", you are ", "."], ["name", "age"];
    GreetingPlain(gaps, keys);
    GreetingRender(t, gaps, keys);
    GreetingFill(gaps, keys, values, out);
    RenderThenSubstitute(gaps, keys, Braces, values);
  }

  lemma NoRescanRender(t: string, gaps: seq<string>, keys: seq<string>)
    requires t == "<{{a}}>" && gaps == ["<", ">"] && keys == ["a"]
    ensures |gaps| == |keys| + 1 && Plain(gaps, keys, Braces) && Render(gaps, keys, Braces) == t
  {
    assert Render(gaps[1..], keys[1..], Braces) == ">";
  }

  lemma NoRescanFill(gaps: seq<string>, keys: seq<string>, values: map<string, string>, out: string)
    requires gaps == ["<", ">"] && keys == ["a"]
    requires values == map["a" := "{{b}}"] && out == "<{{b}}>"
    ensures |gaps| == |keys| + 1 && KeysIn(keys, values) && Fill(gaps, keys, values) == out
  {
    assert KeysIn(keys, values);
    assert Fill(gaps[1..], keys[1..], values) == ">";
  }

  /** A value that looks like a token is written as is, never scanned again. */
  lemma NoRescan(t: string, values: map<string, string>, out: string)
    requires t == "<{{a}}>" && values == map["a" := "{{b}}"] && out == "<{{b}}>"
    ensures Substitute(t, Braces, values) == Ok(out)
  {
    var gaps, keys := ["<", ">"], ["a"];
    NoRescanRender(t, gaps, keys);
    NoRescanFill(gaps, keys, values, out);
    RenderThenSubstitute(gaps, keys, Braces, values);
  }

  /** An opening delimiter that is never closed is copied like any other text. */
  lemma UnclosedToken(t: string, values: map<string, string>)
    requires t == "x{{a"
    ensures Substitute(t, Braces, values) == Ok(t)
  {
    assert '}' !in t;
    forall m: Token | IsMatch(t, Braces, m)
      ensures false
    {
      MatchHasClose(t, Braces, m);
    }
    NoMatchIsIdentity(t, Braces, values);
  }

  /** With both keys missing, the error names the first one in the text. */
  lemma FirstMissingReported(t: string, values: map<string, string>)
    requires t == "{{b}} {{a}}" && values == map["c" := "1"]
    ensures Substitute(t, Braces, values) == Err("b")
  {
    var gaps, keys := ["", " ", ""], ["b", "a"];
    assert Plain(gaps, keys, Braces);
    assert Render(gaps[1..], keys[1..], Braces) == " " + "{{" + "a" + "}}" + "";
    assert Render(gaps, keys, Braces) == t;
    assert keys[0] !in values && KeysIn(keys[..0], values);
    RenderMissingKey(gaps, keys, Braces, values, 0);
  }
}
