/**
 * Joining strings with a separator (`[&str]::join`) and splitting a string
 * at every occurrence of a character (`str::split`).
 */
module Text {

  /** parts[0] sep parts[1] sep ... parts[n-1]; the empty list joins to "". */
  function Join(parts: seq<string>, sep: string): string
    decreases |parts|
  {
    if |parts| == 0 then ""
    else if |parts| == 1 then parts[0]
    else parts[0] + sep + Join(parts[1..], sep)
  }

  /** The pieces between the occurrences of c; there is always at least one. */
  function Split(s: string, c: char): (r: seq<string>)
    ensures |r| >= 1
    decreases |s|
  {
    if s == [] then [[]]
    else
      var rest := Split(s[1..], c);
      if s[0] == c then [[]] + rest else [[s[0]] + rest[0]] + rest[1..]
  }

  predicate NoneContains(parts: seq<string>, c: char)
  {
    forall i :: 0 <= i < |parts| ==> c !in parts[i]
  }

  lemma JoinCons(x: string, parts: seq<string>, sep: string)
    requires |parts| >= 1
    ensures Join([x] + parts, sep) == x + sep + Join(parts, sep)
  {
    assert ([x] + parts)[1..] == parts;
  }

  lemma JoinConsHead(a: char, x: string, parts: seq<string>, sep: string)
    ensures Join([[a] + x] + parts, sep) == [a] + Join([x] + parts, sep)
  {
    if |parts| >= 1 {
      JoinCons([a] + x, parts, sep);
      JoinCons(x, parts, sep);
    }
  }

  /** Splitting and joining back with the same character gives the string again. */
  lemma {:induction false} JoinSplit(s: string, c: char)
    ensures Join(Split(s, c), [c]) == s
    decreases |s|
  {
    if s != [] {
      var rest := Split(s[1..], c);
      JoinSplit(s[1..], c);
      if s[0] == c {
        JoinCons([], rest, [c]);
      } else {
        assert rest == [rest[0]] + rest[1..];
        JoinConsHead(s[0], rest[0], rest[1..], [c]);
      }
      assert [s[0]] + s[1..] == s;
    }
  }

  /** A string without c is a single piece. */
  lemma {:induction false} SplitWhole(x: string, c: char)
    requires c !in x
    ensures Split(x, c) == [x]
    decreases |x|
  {
    if x != [] {
      SplitWhole(x[1..], c);
      assert [x[0]] + x[1..] == x;
    }
  }

  /** A separator ends the piece before it: the pieces of both sides are concatenated. */
  lemma {:induction false} SplitAt(x: string, c: char, y: string)
    ensures Split(x + [c] + y, c) == Split(x, c) + Split(y, c)
    decreases |x|
  {
    var s := x + [c] + y;
    if x == [] {
      assert s[1..] == y;
    } else {
      assert s[1..] == x[1..] + [c] + y;
      SplitAt(x[1..], c, y);
    }
  }

  /** Joining pieces free of c with c and splitting at c gives the pieces back. */
  lemma {:induction false} SplitJoin(parts: seq<string>, c: char)
    requires |parts| >= 1 && NoneContains(parts, c)
    ensures Split(Join(parts, [c]), c) == parts
    decreases |parts|
  {
    SplitWhole(parts[0], c);
    if |parts| > 1 {
      assert NoneContains(parts[1..], c);
      SplitJoin(parts[1..], c);
      SplitAt(parts[0], c, Join(parts[1..], [c]));
      assert parts == [parts[0]] + parts[1..];
    }
  }

  /** Joining with a character the pieces lack is injective. */
  lemma JoinInjective(p: seq<string>, q: seq<string>, c: char)
    requires |p| >= 1 && |q| >= 1 && NoneContains(p, c) && NoneContains(q, c)
    requires Join(p, [c]) == Join(q, [c])
    ensures p == q
  {
    SplitJoin(p, c);
    SplitJoin(q, c);
  }

  /** Where part i begins in the joined string. */
  function Offset(parts: seq<string>, sep: string, i: nat): nat
    requires i < |parts|
    decreases i
  {
    if i == 0 then 0 else |parts[0]| + |sep| + Offset(parts[1..], sep, i - 1)
  }

  /** Every part appears in the joined string, at its offset. */
  lemma {:induction false} JoinContains(parts: seq<string>, sep: string, i: nat)
    requires i < |parts|
    ensures Offset(parts, sep, i) + |parts[i]| <= |Join(parts, sep)|
    ensures Join(parts, sep)[Offset(parts, sep, i)..Offset(parts, sep, i) + |parts[i]|] == parts[i]
    decreases i
  {
    if |parts| == 1 {
      Whole(parts[0]);
    } else if i == 0 {
      Pieces(parts[0], sep, Join(parts[1..], sep));
    } else {
      JoinContains(parts[1..], sep, i - 1);
      ContainsStep(parts, sep, i, Join(parts[1..], sep), Offset(parts[1..], sep, i - 1));
    }
  }

  lemma ContainsStep(parts: seq<string>, sep: string, i: nat, rest: string, o: nat)
    requires 0 < i < |parts| && rest == Join(parts[1..], sep) && o == Offset(parts[1..], sep, i - 1)
    requires o + |parts[i]| <= |rest| && rest[o..o + |parts[i]|] == parts[i]
    ensures Offset(parts, sep, i) + |parts[i]| <= |Join(parts, sep)|
    ensures Join(parts, sep)[Offset(parts, sep, i)..Offset(parts, sep, i) + |parts[i]|] == parts[i]
  {
    assert Join(parts, sep) == parts[0] + sep + rest;
    assert Offset(parts, sep, i) == |parts[0]| + |sep| + o;
    ShiftSlice(parts[0], sep, rest, o, |parts[i]|);
  }

  // Regroupings and slices of concatenated sequences, stated once and
  // called where a proof needs one, which keeps the callers' contexts small.

  lemma Associative<T>(x: seq<T>, y: seq<T>, z: seq<T>)
    ensures x + (y + z) == (x + y) + z
  {
  }

  lemma ConsAppend<T>(a: seq<T>, b: seq<T>)
    requires a != []
    ensures (a + b)[0] == a[0] && (a + b)[1..] == a[1..] + b
  {
  }

  lemma AppendEmpty<T>(a: seq<T>)
    ensures a + [] == a
  {
  }

  lemma MoveHead<T>(a: seq<T>, b: seq<T>)
    requires b != []
    ensures a + b == (a + [b[0]]) + b[1..]
  {
    assert b == [b[0]] + b[1..];
  }

  lemma SliceAfter<T>(x: seq<T>, z: seq<T>, o: nat, n: nat)
    requires o + n <= |z|
    ensures (x + z)[|x| + o..|x| + o + n] == z[o..o + n]
  {
  }

  lemma Whole<T>(x: seq<T>)
    ensures x[0..|x|] == x
  {
  }

  lemma Pieces<T>(x: seq<T>, y: seq<T>, z: seq<T>)
    ensures (x + y + z)[..|x|] == x
  {
  }

  lemma ShiftSlice<T>(x: seq<T>, y: seq<T>, z: seq<T>, o: nat, n: nat)
    requires o + n <= |z|
    ensures (x + y + z)[|x| + |y| + o..|x| + |y| + o + n] == z[o..o + n]
  {
  }

  /** The joined length: the parts plus one separator between each two. */
  function TotalLength(parts: seq<string>): nat
  {
    if parts == [] then 0 else |parts[0]| + TotalLength(parts[1..])
  }

  lemma {:induction false} JoinLength(parts: seq<string>, sep: string)
    requires |parts| >= 1
    ensures |Join(parts, sep)| == TotalLength(parts) + (|parts| - 1) * |sep|
    decreases |parts|
  {
    if |parts| > 1 {
      JoinLength(parts[1..], sep);
    }
  }
}
