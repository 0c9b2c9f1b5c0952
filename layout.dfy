/** src/Generator/Generator.php: what every generator shares for laying out generated code,
  * and the string a chain of `$body .= …` statements builds. */
module Layout {
  import opened Wrappers

  /** `PHP_EOL` on the Unix hosts the generator runs on. */
  const Eol: string := "\n"

  /** `indent($number)`: `str_repeat(' ', $number * 4)`. */
  function Indent(n: nat): (r: string)
    ensures |r| == 4 * n
  {
    if n == 0 then "" else "    " + Indent(n - 1)
  }

  /** The pieces appended one after another, in order. */
  function Concat(parts: seq<string>): string
    decreases |parts|
  {
    if |parts| == 0 then "" else Concat(parts[..|parts| - 1]) + parts[|parts| - 1]
  }

  /** One more piece appended to a prefix of the pieces. */
  lemma {:induction false} ConcatNext(parts: seq<string>, i: nat)
    requires i < |parts|
    ensures Concat(parts[..i + 1]) == Concat(parts[..i]) + parts[i]
  {
    assert parts[..i + 1][..i] == parts[..i];
  }

  /** Concatenating two lists of pieces concatenates their strings. */
  lemma {:induction false} ConcatAppend(a: seq<string>, b: seq<string>)
    ensures Concat(a + b) == Concat(a) + Concat(b)
    decreases |b|
  {
    if |b| == 0 {
      assert a + b == a;
    } else {
      var init := b[..|b| - 1];
      assert (a + b)[..|a + b| - 1] == a + init;
      ConcatAppend(a, init);
    }
  }

  // ---- a `foreach` appending one line per element, where making a line can fail ----

  /** The lines of `xs` in order; the first element without a line aborts. */
  function Lines<T, E>(lineOf: T -> Result<string, E>, xs: seq<T>): Result<seq<string>, E>
    decreases |xs|
  {
    if |xs| == 0 then Ok([])
    else
      var lines :- Lines(lineOf, xs[..|xs| - 1]);
      var line :- lineOf(xs[|xs| - 1]);
      Ok(lines + [line])
  }

  /** One line per element, in order. */
  lemma {:induction false} LinesOk<T, E>(lineOf: T -> Result<string, E>, xs: seq<T>)
    requires Lines(lineOf, xs).Ok?
    ensures |Lines(lineOf, xs).value| == |xs|
    ensures forall i :: 0 <= i < |xs| ==> lineOf(xs[i]) == Ok(Lines(lineOf, xs).value[i])
    decreases |xs|
  {
    if |xs| > 0 {
      LinesOk(lineOf, xs[..|xs| - 1]);
    }
  }

  /** The lines fail iff some element has no line, with the error of the first such element. */
  lemma {:induction false} LinesErr<T, E>(lineOf: T -> Result<string, E>, xs: seq<T>)
    ensures Lines(lineOf, xs).Err? <==> exists i :: 0 <= i < |xs| && lineOf(xs[i]).Err?
    ensures Lines(lineOf, xs).Err? ==> exists i :: 0 <= i < |xs| && lineOf(xs[i]) == Err(Lines(lineOf, xs).error)
                                                 && forall j :: 0 <= j < i ==> lineOf(xs[j]).Ok?
    decreases |xs|
  {
    if |xs| > 0 {
      var init := xs[..|xs| - 1];
      LinesErr(lineOf, init);
      assert forall i :: 0 <= i < |init| ==> init[i] == xs[i];
      if Lines(lineOf, init).Ok? {
        LinesOk(lineOf, init);
      }
    }
  }

  /** Once an element has no line, the elements after it change nothing. */
  lemma {:induction false} LinesAbort<T, E>(lineOf: T -> Result<string, E>, a: seq<T>, b: seq<T>)
    requires Lines(lineOf, a).Err?
    ensures Lines(lineOf, a + b) == Lines(lineOf, a)
    decreases |b|
  {
    if |b| == 0 {
      assert a + b == a;
    } else {
      assert (a + b)[..|a + b| - 1] == a + b[..|b| - 1];
      LinesAbort(lineOf, a, b[..|b| - 1]);
    }
  }

  /** The lines of `done + xs`, appended element by element: the text of the lines of `xs`,
    * or the error of the first element of `xs` without a line. */
  method AppendLines<T, E>(lineOf: T -> Result<string, E>, ghost done: seq<T>, ghost lines: seq<string>, xs: seq<T>)
    returns (r: Result<string, E>, ghost added: seq<string>)
    requires Lines(lineOf, done) == Ok(lines)
    ensures r.Ok? ==> Lines(lineOf, done + xs) == Ok(lines + added) && r.value == Concat(added)
    ensures r.Err? ==> Lines(lineOf, done + xs) == Err(r.error)
  {
    var text := "";
    added := [];
    var i := 0;
    assert done + xs[..0] == done && lines + [] == lines;
    while i < |xs|
      invariant 0 <= i <= |xs|
      invariant Lines(lineOf, done + xs[..i]) == Ok(lines + added) && text == Concat(added)
    {
      var line := lineOf(xs[i]);
      assert (done + xs[..i] + [xs[i]])[..|done + xs[..i]|] == done + xs[..i];
      assert done + xs[..i] + [xs[i]] == done + xs[..i + 1];
      if line.Err? {
        assert done + xs == (done + xs[..i + 1]) + xs[i + 1..];
        LinesAbort(lineOf, done + xs[..i + 1], xs[i + 1..]);
        return Err(line.error), added;
      }
      assert (added + [line.value])[..|added|] == added;
      assert lines + added + [line.value] == lines + (added + [line.value]);
      text := text + line.value;
      added := added + [line.value];
      i := i + 1;
    }
    assert xs[..i] == xs;
    r := Ok(text);
  }

  /** The text of the lines of `xs`. */
  function LinesText<T, E>(lineOf: T -> Result<string, E>, xs: seq<T>): Result<string, E> {
    var lines :- Lines(lineOf, xs);
    Ok(Concat(lines))
  }

  /** Three `foreach` loops in turn, over `a`, `b` and `c`, each appending its lines to the
    * same text; the first element without a line aborts. */
  method AppendLinesInTurn<T, E>(lineOf: T -> Result<string, E>, a: seq<T>, b: seq<T>, c: seq<T>)
    returns (r: Result<string, E>)
    ensures r == LinesText(lineOf, a + b + c)
  {
    var o1, a1 := AppendLines(lineOf, [], [], a);
    assert [] + a == a && [] + a1 == a1;
    if o1.Err? {
      LinesAbort(lineOf, a, b + c);
      assert a + (b + c) == a + b + c;
      return Err(o1.error);
    }
    var o2, a2 := AppendLines(lineOf, a, a1, b);
    if o2.Err? {
      LinesAbort(lineOf, a + b, c);
      return Err(o2.error);
    }
    var o3, a3 := AppendLines(lineOf, a + b, a1 + a2, c);
    if o3.Err? {
      return Err(o3.error);
    }
    ConcatAppend(a1, a2);
    ConcatAppend(a1 + a2, a3);
    r := Ok(o1.value + o2.value + o3.value);
  }

  // ---- a `foreach` appending several pieces per element, where making them can fail ----

  /** The pieces of `xs`, element after element; the first element that fails aborts. */
  function Pieces<T, E>(piecesOf: T -> Result<seq<string>, E>, xs: seq<T>): Result<seq<string>, E>
    decreases |xs|
  {
    if |xs| == 0 then Ok([])
    else
      var done :- Pieces(piecesOf, xs[..|xs| - 1]);
      var more :- piecesOf(xs[|xs| - 1]);
      Ok(done + more)
  }

  /** The pieces succeed iff every element's do, and then hold every piece of every element. */
  lemma {:induction false} PiecesOk<T, E>(piecesOf: T -> Result<seq<string>, E>, xs: seq<T>)
    ensures Pieces(piecesOf, xs).Ok? <==> forall i :: 0 <= i < |xs| ==> piecesOf(xs[i]).Ok?
    ensures Pieces(piecesOf, xs).Ok? ==>
      forall i, j :: 0 <= i < |xs| && 0 <= j < |piecesOf(xs[i]).value| ==> piecesOf(xs[i]).value[j] in Pieces(piecesOf, xs).value
    decreases |xs|
  {
    if |xs| > 0 {
      var init := xs[..|xs| - 1];
      PiecesOk(piecesOf, init);
      assert forall i :: 0 <= i < |init| ==> init[i] == xs[i];
    }
  }

  /** Once an element fails, the elements after it change nothing. */
  lemma {:induction false} PiecesAbort<T, E>(piecesOf: T -> Result<seq<string>, E>, xs: seq<T>, n: nat)
    requires n <= |xs| && Pieces(piecesOf, xs[..n]).Err?
    ensures Pieces(piecesOf, xs) == Pieces(piecesOf, xs[..n])
    decreases |xs| - n
  {
    if n < |xs| {
      assert xs[..n + 1][..n] == xs[..n];
      PiecesAbort(piecesOf, xs, n + 1);
    } else {
      assert xs[..n] == xs;
    }
  }
}
