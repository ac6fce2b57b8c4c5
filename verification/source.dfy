/** Helpers for the JavaScript source text the compiler emits. */
module Source {
  import opened Js

  /** Every line with `ind` in front of it. */
  function Prefixed(lines: seq<string>, ind: string): seq<string> {
    seq(|lines|, i requires 0 <= i < |lines| => ind + lines[i])
  }

  /** `indent(code, ind)`: split on new lines, prefix each line, join again. */
  function Indent(code: string, ind: string): string {
    Join(Prefixed(Split(code, '\n'), ind), "\n")
  }

  /** The default indentation of `indent`. */
  const TwoSpaces: string := "  "

  /** Indenting keeps the number of lines, and line k of the result is the
      indentation followed by line k of the input. */
  lemma IndentLines(code: string, ind: string)
    requires '\n' !in ind
    ensures Split(Indent(code, ind), '\n') == Prefixed(Split(code, '\n'), ind)
    ensures |Split(Indent(code, ind), '\n')| == |Split(code, '\n')|
  {
    var lines := Prefixed(Split(code, '\n'), ind);
    forall l <- lines ensures '\n' !in l {
      var k :| 0 <= k < |lines| && lines[k] == l;
      assert l == ind + Split(code, '\n')[k];
    }
    SplitJoin(lines, '\n');
  }

  /** The arrow function `(p1, p2, …) => {` + the indented body + `}`. */
  function Block(params: seq<string>, code: string): string {
    "(" + Join(params, ", ") + ") => {\n" + Indent(code, TwoSpaces) + "\n}"
  }

  /** The call `(callee)(a1, a2, …)`. */
  function Call(callee: string, actuals: seq<string>): string {
    "(" + callee + ")(" + Join(actuals, ", ") + ")"
  }

  /** A block reads as its header line, each body line indented by two
      spaces, and the closing brace on a line of its own. */
  lemma BlockLines(params: seq<string>, code: string)
    requires forall p <- params :: '\n' !in p
    ensures Split(Block(params, code), '\n') ==
      ["(" + Join(params, ", ") + ") => {"] + Prefixed(Split(code, '\n'), TwoSpaces) + ["}"]
  {
    var header := "(" + Join(params, ", ") + ") => {";
    var body := Indent(code, TwoSpaces);
    JoinFree(params, ", ", '\n');
    SplitFree(header, '\n');
    SplitFree("}", '\n');
    IndentLines(code, TwoSpaces);
    assert Block(params, code) == header + ['\n'] + (body + ['\n'] + "}");
    SplitConcat(header, body + ['\n'] + "}", '\n');
    SplitConcat(body, "}", '\n');
  }

  /** `[x] + rest` joins as `x`, the separator, and the rest joined. */
  lemma JoinCons(x: string, rest: seq<string>, sep: string)
    requires |rest| >= 1
    ensures Join([x] + rest, sep) == x + sep + Join(rest, sep)
  {
    assert ([x] + rest)[1..] == rest;
  }

  /** A fixed first parameter followed by a list, joined with commas. */
  lemma Leading1(a: string, rest: seq<string>)
    ensures |rest| > 0 ==> Join([a] + rest, ", ") == a + ", " + Join(rest, ", ")
    ensures |rest| == 0 ==> Join([a] + rest, ", ") == a
  {
    if |rest| > 0 {
      JoinCons(a, rest, ", ");
    } else {
      assert [a] + rest == [a];
    }
  }

  /** Peels the first of a list of at least two parameters. */
  lemma PeelFirst(a: string, more: seq<string>, rest: seq<string>)
    requires |more| > 0
    ensures Join([a] + more + rest, ", ") == a + ", " + Join(more + rest, ", ")
  {
    assert [a] + more + rest == [a] + (more + rest);
    JoinCons(a, more + rest, ", ");
  }

  /** `x + (b + ", " + j)` regrouped to the left. */
  lemma Regroup(x: string, b: string, j: string)
    ensures x + (b + ", " + j) == x + b + ", " + j
  {
    Assoc(x, b + ", ", j);
    Assoc(x, b, ", ");
  }

  /** Two fixed parameters followed by a list, joined with commas. */
  lemma Leading2(a: string, b: string, rest: seq<string>)
    ensures |rest| > 0 ==> Join([a, b] + rest, ", ") == a + ", " + b + ", " + Join(rest, ", ")
    ensures |rest| == 0 ==> Join([a, b] + rest, ", ") == a + ", " + b
  {
    assert [a, b] == [a] + [b];
    PeelFirst(a, [b], rest);
    Leading1(b, rest);
    if |rest| > 0 {
      Regroup(a + ", ", b, Join(rest, ", "));
    }
  }

  /** Three fixed parameters followed by a list, joined with commas. */
  lemma Leading3(a: string, b: string, c: string, rest: seq<string>)
    ensures |rest| > 0 ==> Join([a, b, c] + rest, ", ") == a + ", " + b + ", " + c + ", " + Join(rest, ", ")
    ensures |rest| == 0 ==> Join([a, b, c] + rest, ", ") == a + ", " + b + ", " + c
  {
    assert [a, b, c] == [a] + [b, c];
    PeelFirst(a, [b, c], rest);
    Leading2(b, c, rest);
    var x := a + ", ";
    Regroup(x, b, c);
    if |rest| > 0 {
      Regroup(x, b + ", " + c, Join(rest, ", "));
    }
  }
}
