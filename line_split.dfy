/** Splitting text into lines as `content.split(/\r?\n/)` does, and joining
    lines back with a separator as `Array.prototype.join` does. */
module LineSplit {

  /** The pieces of `s` between line terminators, where a terminator is a
      '\n' together with the '\r' directly before it, if there is one.
      A lone '\r' is ordinary text. Every '\n' ends exactly one piece. */
  function SplitLines(s: string): (lines: seq<string>)
    ensures |lines| >= 1
    ensures forall i :: 0 <= i < |lines| ==> '\n' !in lines[i]
    decreases |s|
  {
    if |s| == 0 then [""]
    else if s[0] == '\n' then [""] + SplitLines(s[1..])
    else if |s| >= 2 && s[0] == '\r' && s[1] == '\n' then [""] + SplitLines(s[2..])
    else
      var rest := SplitLines(s[1..]);
      [[s[0]] + rest[0]] + rest[1..]
  }

  /** Every '\n' of `s` ends exactly one piece. */
  lemma {:induction false} SplitLinesCount(s: string)
    ensures |SplitLines(s)| == multiset(s)['\n'] + 1
    decreases |s|
  {
    if |s| == 0 {
    } else if s[0] == '\n' {
      assert s == [s[0]] + s[1..];
      SplitLinesCount(s[1..]);
    } else if |s| >= 2 && s[0] == '\r' && s[1] == '\n' {
      assert s == [s[0]] + [s[1]] + s[2..];
      SplitLinesCount(s[2..]);
    } else {
      assert s == [s[0]] + s[1..];
      SplitLinesCount(s[1..]);
    }
  }

  /** `lines.join(sep)`. */
  function Join(lines: seq<string>, sep: string): string {
    if |lines| == 0 then ""
    else if |lines| == 1 then lines[0]
    else lines[0] + sep + Join(lines[1..], sep)
  }

  /** `s` with every "\r\n" replaced by "\n", scanning left to right. */
  function NormalizeNewlines(s: string): string
    decreases |s|
  {
    if |s| == 0 then ""
    else if |s| >= 2 && s[0] == '\r' && s[1] == '\n' then "\n" + NormalizeNewlines(s[2..])
    else [s[0]] + NormalizeNewlines(s[1..])
  }

  /** Joining a line onto the front of the rest with one character in front. */
  lemma {:induction false} JoinConsChar(c: char, first: string, rest: seq<string>, sep: string)
    ensures Join([[c] + first] + rest, sep) == [c] + Join([first] + rest, sep)
  {
    var a, b := [[c] + first] + rest, [first] + rest;
    assert a[1..] == rest && b[1..] == rest;
  }

  /** A piece that ends at a terminator of length `len` at the front of `s`. */
  lemma JoinSplitLinesAtTerminator(s: string, len: nat)
    requires 1 <= len <= |s|
    requires len == 1 ==> s[0] == '\n'
    requires len == 2 ==> s[0] == '\r' && s[1] == '\n'
    requires len <= 2
    requires Join(SplitLines(s[len..]), "\n") == NormalizeNewlines(s[len..])
    ensures Join(SplitLines(s), "\n") == NormalizeNewlines(s)
  {
    var r := SplitLines(s[len..]);
    assert SplitLines(s) == [""] + r;
    assert ([""] + r)[1..] == r;
    assert Join([""] + r, "\n") == "\n" + Join(r, "\n");
    assert NormalizeNewlines(s) == "\n" + NormalizeNewlines(s[len..]);
  }

  /** A first character that is not part of a terminator. */
  lemma JoinSplitLinesAtChar(s: string)
    requires |s| >= 1 && s[0] != '\n' && !(|s| >= 2 && s[0] == '\r' && s[1] == '\n')
    requires Join(SplitLines(s[1..]), "\n") == NormalizeNewlines(s[1..])
    ensures Join(SplitLines(s), "\n") == NormalizeNewlines(s)
  {
    var r := SplitLines(s[1..]);
    assert SplitLines(s) == [[s[0]] + r[0]] + r[1..];
    assert r == [r[0]] + r[1..];
    JoinConsChar(s[0], r[0], r[1..], "\n");
    assert NormalizeNewlines(s) == [s[0]] + NormalizeNewlines(s[1..]);
  }

  /** Joining the pieces with "\n" gives back the input with its "\r\n"
      terminators normalised to "\n". */
  lemma {:induction false} JoinSplitLines(s: string)
    ensures Join(SplitLines(s), "\n") == NormalizeNewlines(s)
    decreases |s|
  {
    if |s| == 0 {
    } else if s[0] == '\n' {
      JoinSplitLines(s[1..]);
      JoinSplitLinesAtTerminator(s, 1);
    } else if |s| >= 2 && s[0] == '\r' && s[1] == '\n' {
      JoinSplitLines(s[2..]);
      JoinSplitLinesAtTerminator(s, 2);
    } else {
      JoinSplitLines(s[1..]);
      JoinSplitLinesAtChar(s);
    }
  }

  /** A string without '\n' is a single piece. */
  lemma {:induction false} SplitLinesSingle(p: string)
    requires '\n' !in p
    ensures SplitLines(p) == [p]
    decreases |p|
  {
    if |p| > 0 {
      assert p == [p[0]] + p[1..];
      SplitLinesSingle(p[1..]);
    }
  }

  /** True when `p` ends with '\r', which would merge with a following '\n'. */
  predicate EndsWithCR(p: string) {
    |p| > 0 && p[|p| - 1] == '\r'
  }

  /** A piece followed by '\n' splits off cleanly when it has no '\n' and
      does not end with '\r'. */
  lemma {:induction false} SplitLinesCons(p: string, rest: string)
    requires '\n' !in p && !EndsWithCR(p)
    ensures SplitLines(p + "\n" + rest) == [p] + SplitLines(rest)
    decreases |p|
  {
    var s := p + "\n" + rest;
    if |p| == 0 {
      assert s == "\n" + rest;
      assert s[1..] == rest;
    } else {
      var p' := p[1..];
      assert p == [p[0]] + p';
      assert s[1..] == p' + "\n" + rest;
      assert !EndsWithCR(p') by {
        if |p'| > 0 { assert p'[|p'| - 1] == p[|p| - 1]; }
      }
      SplitLinesCons(p', rest);
      assert |p'| == 0 ==> p[0] != '\r';
      assert |s| >= 2 && s[0] == '\r' ==> s[1] != '\n' by {
        if |p'| > 0 { assert s[1] == p'[0]; assert p'[0] in p'; }
      }
    }
  }

  /** The other direction: joining lines with "\n" and splitting again gives
      the same lines, provided no line holds a '\n' and no line but the last
      ends with '\r'. */
  lemma {:induction false} SplitLinesJoin(lines: seq<string>)
    requires |lines| >= 1
    requires forall i :: 0 <= i < |lines| ==> '\n' !in lines[i]
    requires forall i :: 0 <= i < |lines| - 1 ==> !EndsWithCR(lines[i])
    ensures SplitLines(Join(lines, "\n")) == lines
    decreases |lines|
  {
    if |lines| == 1 {
      SplitLinesSingle(lines[0]);
    } else {
      var rest := lines[1..];
      assert forall i :: 0 <= i < |rest| ==> rest[i] == lines[i + 1];
      SplitLinesJoin(rest);
      assert '\n' !in lines[0] && !EndsWithCR(lines[0]);
      SplitLinesCons(lines[0], Join(rest, "\n"));
      assert Join(lines, "\n") == lines[0] + "\n" + Join(rest, "\n");
      assert lines == [lines[0]] + rest;
    }
  }
}
