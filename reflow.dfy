/** The subtitle-to-prose reflow of index.js: split the concatenated SRT
    text into lines, drop the cue-index, timing and empty lines, and append
    every other line to the result followed by a paragraph break (two
    end-of-line markers) when it ends a sentence, or by one space otherwise.
    The platform's end-of-line marker `eol` is a parameter. */
module Reflow {
  import opened TextSearch
  import opened LineSplit

  /** The marker that separates the two times of an SRT timing line. */
  const Arrow := " --> "

  /** A timing line: its first " --> " is at a position greater than 0.
      A line whose first " --> " is at position 0 is not one. */
  predicate IsTimingLine(line: string)
    ensures IsTimingLine(line) ==> |line| > |Arrow|
  {
    IndexOf(line, Arrow) > 0
  }

  /** Line `i` is dropped: it is empty, it is a timing line, or it is not the
      last line and the line after it is a timing line (a cue index). */
  predicate IsSkip(lines: seq<string>, i: nat)
    requires i < |lines|
    ensures |lines[i]| == 0 ==> IsSkip(lines, i)
    ensures i == |lines| - 1 ==> (IsSkip(lines, i) <==> |lines[i]| == 0 || IsTimingLine(lines[i]))
  {
    |lines[i]| == 0
    || IsTimingLine(lines[i])
    || (i < |lines| - 1 && IsTimingLine(lines[i + 1]))
  }

  /** The line matches /[.!?]$/: its last character ends a sentence. */
  predicate EndsSentence(line: string) {
    |line| > 0 && line[|line| - 1] in {'.', '!', '?'}
  }

  /** What is appended after a kept line. */
  function Separator(line: string, eol: string): string {
    if EndsSentence(line) then eol + eol else " "
  }

  /** The indices below `n` of the lines that are kept, in increasing order. */
  function KeptIndices(lines: seq<string>, n: nat): (idx: seq<nat>)
    requires n <= |lines|
    ensures |idx| <= n
    ensures forall j :: 0 <= j < |idx| ==> idx[j] < n
  {
    if n == 0 then []
    else KeptIndices(lines, n - 1) + (if IsSkip(lines, n - 1) then [] else [n - 1])
  }

  /** The kept lines among the first `n`, in their original order. */
  function Survivors(lines: seq<string>, n: nat): (kept: seq<string>)
    requires n <= |lines|
    ensures |kept| <= n
  {
    if n == 0 then []
    else Survivors(lines, n - 1) + (if IsSkip(lines, n - 1) then [] else [lines[n - 1]])
  }

  /** No surviving line is empty or a timing line. */
  lemma {:induction false} SurvivorsClean(lines: seq<string>, n: nat)
    requires n <= |lines|
    ensures forall j :: 0 <= j < |Survivors(lines, n)| ==>
      |Survivors(lines, n)[j]| > 0 && !IsTimingLine(Survivors(lines, n)[j])
  {
    if n > 0 {
      SurvivorsClean(lines, n - 1);
    }
  }

  /** All kept lines, in their original order. */
  function Kept(lines: seq<string>): (kept: seq<string>)
    ensures |kept| <= |lines|
    ensures forall j :: 0 <= j < |kept| ==> |kept[j]| > 0 && !IsTimingLine(kept[j])
  {
    SurvivorsClean(lines, |lines|);
    Survivors(lines, |lines|)
  }

  /** A kept line with its separator. */
  function Piece(line: string, eol: string): string {
    line + Separator(line, eol)
  }

  /** The text built from `kept`: every line followed by its separator. */
  function Render(kept: seq<string>, eol: string): (out: string)
    ensures |out| >= |kept|
  {
    if kept == [] then ""
    else Piece(kept[0], eol) + Render(kept[1..], eol)
  }

  /** What index.js writes for the joined file contents `content`. */
  function ReflowText(content: string, eol: string): (out: string)
    ensures out == "" <==> Kept(SplitLines(content)) == []
  {
    Render(Kept(SplitLines(content)), eol)
  }

  /** Rendering distributes over concatenation of the kept lines. */
  lemma {:induction false} RenderAppend(a: seq<string>, b: seq<string>, eol: string)
    ensures Render(a + b, eol) == Render(a, eol) + Render(b, eol)
    decreases |a|
  {
    if a == [] {
      assert a + b == b;
    } else {
      assert (a + b)[0] == a[0];
      assert (a + b)[1..] == a[1..] + b;
      RenderAppend(a[1..], b, eol);
    }
  }

  /** Keeping one more line appends it and its separator. */
  lemma RenderSnoc(kept: seq<string>, line: string, eol: string)
    ensures Render(kept + [line], eol) == Render(kept, eol) + line + Separator(line, eol)
  {
    RenderAppend(kept, [line], eol);
    assert [line][1..] == [];
  }

  /** The reflow loop of index.js. */
  method ReflowContent(content: string, eol: string) returns (result: string)
    ensures result == ReflowText(content, eol)
  {
    var lines := SplitLines(content);
    result := "";
    ghost var kept: seq<string> := [];
    for i := 0 to |lines|
      invariant kept == Survivors(lines, i)
      invariant result == Render(kept, eol)
    {
      var line := lines[i];
      if IsSkip(lines, i) {
        assert Survivors(lines, i + 1) == kept + [] == kept;
        continue;
      }
      RenderSnoc(kept, line, eol);
      kept := kept + [line];
      ghost var before := result;
      result := result + line;
      if EndsSentence(line) {
        result := result + eol + eol;
        assert result == before + line + (eol + eol);
      } else {
        result := result + " ";
      }
    }
  }

  // ---------------------------------------------------------------------
  // Which lines survive, and in what order

  /** An index is kept exactly when its line is not skipped. */
  lemma {:induction false} KeptIndicesMembers(lines: seq<string>, n: nat)
    requires n <= |lines|
    ensures forall i: nat :: i in KeptIndices(lines, n) <==> i < n && !IsSkip(lines, i)
  {
    if n > 0 {
      KeptIndicesMembers(lines, n - 1);
      var prev := KeptIndices(lines, n - 1);
      var last := if IsSkip(lines, n - 1) then [] else [n - 1];
      assert KeptIndices(lines, n) == prev + last;
      assert forall i: nat :: i in prev + last <==> i in prev || i in last;
    }
  }

  /** The kept indices are strictly increasing and below `n`. */
  lemma {:induction false} KeptIndicesIncreasing(lines: seq<string>, n: nat)
    requires n <= |lines|
    ensures forall j :: 0 <= j < |KeptIndices(lines, n)| ==> KeptIndices(lines, n)[j] < n
    ensures forall j, k :: 0 <= j < k < |KeptIndices(lines, n)| ==>
              KeptIndices(lines, n)[j] < KeptIndices(lines, n)[k]
  {
    if n > 0 {
      KeptIndicesIncreasing(lines, n - 1);
    }
  }

  /** The survivors are the lines at the kept indices. */
  lemma {:induction false} SurvivorsAtKeptIndices(lines: seq<string>, n: nat)
    requires n <= |lines|
    ensures |Survivors(lines, n)| == |KeptIndices(lines, n)|
    ensures forall j :: 0 <= j < |Survivors(lines, n)| ==>
              KeptIndices(lines, n)[j] < |lines| && Survivors(lines, n)[j] == lines[KeptIndices(lines, n)[j]]
  {
    if n > 0 {
      SurvivorsAtKeptIndices(lines, n - 1);
      KeptIndicesIncreasing(lines, n);
    }
  }

  /** The kept indices are exactly the non-skipped ones, strictly increasing,
      and the survivors are the lines at those indices. */
  lemma KeptIndicesExact(lines: seq<string>, n: nat)
    requires n <= |lines|
    ensures forall i: nat :: i in KeptIndices(lines, n) <==> i < n && !IsSkip(lines, i)
    ensures forall j, k :: 0 <= j < k < |KeptIndices(lines, n)| ==>
              KeptIndices(lines, n)[j] < KeptIndices(lines, n)[k]
    ensures |Survivors(lines, n)| == |KeptIndices(lines, n)|
    ensures forall j :: 0 <= j < |Survivors(lines, n)| ==>
              KeptIndices(lines, n)[j] < n && Survivors(lines, n)[j] == lines[KeptIndices(lines, n)[j]]
  {
    KeptIndicesMembers(lines, n);
    KeptIndicesIncreasing(lines, n);
    SurvivorsAtKeptIndices(lines, n);
  }

  /** The three skip rules, and their limits. */
  lemma SkipRules(lines: seq<string>, i: nat)
    requires i < |lines|
    ensures |lines[i]| == 0 ==> i !in KeptIndices(lines, |lines|)
    ensures IsTimingLine(lines[i]) ==> i !in KeptIndices(lines, |lines|)
    ensures i < |lines| - 1 && IsTimingLine(lines[i + 1]) ==> i !in KeptIndices(lines, |lines|)
    ensures i == |lines| - 1 && |lines[i]| > 0 && !IsTimingLine(lines[i]) ==>
              i in KeptIndices(lines, |lines|)
    ensures |lines[i]| > 0 && !IsTimingLine(lines[i]) && !(i < |lines| - 1 && IsTimingLine(lines[i + 1])) ==>
              i in KeptIndices(lines, |lines|)
  {
    KeptIndicesExact(lines, |lines|);
  }

  /** A timing line is one whose " --> " occurs somewhere, but not at 0. */
  lemma TimingLineIff(line: string)
    ensures IsTimingLine(line) <==> (exists k :: OccursAt(line, Arrow, k)) && !OccursAt(line, Arrow, 0)
  {
    IndexOfCorrect(line, Arrow);
  }

  /** Without timing lines the kept lines are exactly the non-empty ones. */
  function NonEmptyLines(lines: seq<string>): seq<string> {
    if lines == [] then []
    else (if |lines[0]| == 0 then [] else [lines[0]]) + NonEmptyLines(lines[1..])
  }

  lemma {:induction false} NonEmptyLinesAppend(a: seq<string>, b: seq<string>)
    ensures NonEmptyLines(a + b) == NonEmptyLines(a) + NonEmptyLines(b)
  {
    if a == [] {
      assert a + b == b;
    } else {
      assert (a + b)[1..] == a[1..] + b;
      NonEmptyLinesAppend(a[1..], b);
    }
  }

  lemma {:induction false} NoTimingKeepsNonEmpty(lines: seq<string>, n: nat)
    requires n <= |lines|
    requires forall i :: 0 <= i < |lines| ==> !IsTimingLine(lines[i])
    ensures Survivors(lines, n) == NonEmptyLines(lines[..n])
  {
    if n > 0 {
      NoTimingKeepsNonEmpty(lines, n - 1);
      assert lines[..n] == lines[..n - 1] + [lines[n - 1]];
      NonEmptyLinesAppend(lines[..n - 1], [lines[n - 1]]);
      assert NonEmptyLines([lines[n - 1]]) == if |lines[n - 1]| == 0 then [] else [lines[n - 1]] by {
        assert [lines[n - 1]][1..] == [];
      }
    }
  }

  /** An empty input is one empty line, and produces an empty result. */
  lemma EmptyInput(eol: string)
    ensures SplitLines("") == [""]
    ensures ReflowText("", eol) == ""
  {
    var lines := SplitLines("");
    assert lines == [""];
    assert IsSkip(lines, 0);
    assert Survivors(lines, 1) == Survivors(lines, 0) == [];
  }

  // ---------------------------------------------------------------------
  // The shape of the result

  /** The separator is two end-of-line markers exactly when the line ends a
      sentence, and a single space exactly when it does not. */
  lemma SeparatorIff(line: string, eol: string)
    ensures Separator(line, eol) == eol + eol <==> EndsSentence(line)
    ensures Separator(line, eol) == " " <==> !EndsSentence(line)
  {
    if !EndsSentence(line) {
      assert |eol + eol| != |" "|;
    }
  }

  /** The length of a separator. */
  function SeparatorLength(line: string, eol: string): nat {
    if EndsSentence(line) then 2 * |eol| else 1
  }

  /** The sum of the line lengths plus the separator lengths. */
  function TotalLength(kept: seq<string>, eol: string): nat {
    if kept == [] then 0
    else |kept[0]| + SeparatorLength(kept[0], eol) + TotalLength(kept[1..], eol)
  }

  lemma {:induction false} TotalLengthAppend(kept: seq<string>, line: string, eol: string)
    ensures TotalLength(kept + [line], eol) == TotalLength(kept, eol) + |line| + SeparatorLength(line, eol)
  {
    if kept == [] {
      assert ([line])[1..] == [];
    } else {
      assert (kept + [line])[1..] == kept[1..] + [line];
      TotalLengthAppend(kept[1..], line, eol);
    }
  }

  /** The result is as long as all kept lines and their separators together. */
  lemma {:induction false} RenderLength(kept: seq<string>, eol: string)
    ensures |Render(kept, eol)| == TotalLength(kept, eol)
  {
    if kept != [] {
      RenderLength(kept[1..], eol);
    }
  }

  /** Where kept line `j` begins in the result. */
  function Offset(kept: seq<string>, eol: string, j: nat): nat
    requires j <= |kept|
  {
    TotalLength(kept[..j], eol)
  }

  /** The result around kept line `j`. */
  lemma RenderAt(kept: seq<string>, eol: string, j: nat)
    requires j < |kept|
    ensures Render(kept, eol) == Render(kept[..j], eol) + Piece(kept[j], eol) + Render(kept[j + 1..], eol)
  {
    var pre, post := kept[..j], kept[j..];
    assert kept == pre + post;
    RenderAppend(pre, post, eol);
    assert post[0] == kept[j] && post[1..] == kept[j + 1..];
  }

  /** The offset of kept line `j + 1` is that of line `j` plus its piece. */
  lemma OffsetNext(kept: seq<string>, eol: string, j: nat)
    requires j < |kept|
    ensures Offset(kept, eol, j + 1) == Offset(kept, eol, j) + |Piece(kept[j], eol)|
  {
    assert kept[..j + 1] == kept[..j] + [kept[j]];
    TotalLengthAppend(kept[..j], kept[j], eol);
  }

  /** Kept line `j` appears in the result at its offset, followed directly by
      its separator, which ends where line `j + 1` begins. */
  lemma RenderPieces(kept: seq<string>, eol: string, j: nat)
    requires j < |kept|
    ensures Offset(kept, eol, j) + |kept[j]| + |Separator(kept[j], eol)| == Offset(kept, eol, j + 1)
    ensures Offset(kept, eol, j + 1) <= |Render(kept, eol)|
    ensures Render(kept, eol)[Offset(kept, eol, j)..Offset(kept, eol, j) + |kept[j]|] == kept[j]
    ensures Render(kept, eol)[Offset(kept, eol, j) + |kept[j]|..Offset(kept, eol, j + 1)]
            == Separator(kept[j], eol)
  {
    RenderAt(kept, eol, j);
    RenderLength(kept[..j], eol);
    OffsetNext(kept, eol, j);
    SliceMiddle(Render(kept[..j], eol), kept[j], Separator(kept[j], eol), Render(kept[j + 1..], eol));
  }

  /** Where the middle parts of a concatenation lie. */
  lemma SliceMiddle(a: string, x: string, y: string, b: string)
    ensures |a| + |x| + |y| <= |a + (x + y) + b|
    ensures (a + (x + y) + b)[|a|..|a| + |x|] == x
    ensures (a + (x + y) + b)[|a| + |x|..|a| + |x| + |y|] == y
  {
    var s := a + (x + y) + b;
    assert forall i :: 0 <= i < |x| ==> s[|a| + i] == x[i];
    assert forall i :: 0 <= i < |y| ==> s[|a| + |x| + i] == y[i];
  }

  /** Every kept line appears in the result once, in the order of the input:
      the `j`-th kept line is input line `i`, which is not skipped, and it
      stands at the `j`-th offset, followed directly by its separator. */
  lemma ReflowShape(content: string, eol: string, j: nat)
    requires j < |KeptIndices(SplitLines(content), |SplitLines(content)|)|
    ensures var lines := SplitLines(content);
      var i := KeptIndices(lines, |lines|)[j];
      var kept := Kept(lines);
      var out := ReflowText(content, eol);
      i < |lines| && !IsSkip(lines, i) && j < |kept| && kept[j] == lines[i] &&
      |out| == TotalLength(kept, eol) &&
      Offset(kept, eol, j) + |lines[i]| + |Separator(lines[i], eol)| == Offset(kept, eol, j + 1) &&
      Offset(kept, eol, j + 1) <= |out| &&
      out[Offset(kept, eol, j)..Offset(kept, eol, j) + |lines[i]|] == lines[i] &&
      out[Offset(kept, eol, j) + |lines[i]|..Offset(kept, eol, j + 1)] == Separator(lines[i], eol)
  {
    var lines := SplitLines(content);
    KeptAt(lines, j);
    RenderLength(Kept(lines), eol);
    RenderPieces(Kept(lines), eol, j);
  }

  /** The `j`-th kept line is a line that is not skipped. */
  lemma KeptAt(lines: seq<string>, j: nat)
    requires j < |KeptIndices(lines, |lines|)|
    ensures KeptIndices(lines, |lines|)[j] < |lines|
    ensures !IsSkip(lines, KeptIndices(lines, |lines|)[j])
    ensures j < |Kept(lines)| && Kept(lines)[j] == lines[KeptIndices(lines, |lines|)[j]]
  {
    KeptIndicesMembers(lines, |lines|);
    SurvivorsAtKeptIndices(lines, |lines|);
    assert KeptIndices(lines, |lines|)[j] in KeptIndices(lines, |lines|);
  }

  // ---------------------------------------------------------------------
  // Worked examples

  /** A line without '>' holds no " --> ". */
  lemma NoArrowWithoutHead(line: string)
    requires '>' !in line
    ensures IndexOf(line, Arrow) == -1
  {
    IndexOfCorrect(line, Arrow);
    forall k ensures !OccursAt(line, Arrow, k) {
      if 0 <= k && k + |Arrow| <= |line| {
        assert line[k..k + |Arrow|][3] == line[k + 3];
      }
    }
  }

  /** The lines of the first example. */
  lemma TwoSentencesKept()
    ensures Kept(["Hello.", "World."]) == ["Hello.", "World."]
  {
    var lines := ["Hello.", "World."];
    NoArrowWithoutHead(lines[0]);
    NoArrowWithoutHead(lines[1]);
    assert !IsSkip(lines, 0) && !IsSkip(lines, 1);
    assert Survivors(lines, 1) == ["Hello."];
  }

  lemma TwoSentencesSplit()
    ensures SplitLines("Hello.\nWorld.") == ["Hello.", "World."]
  {
    var lines := ["Hello.", "World."];
    assert '\n' !in lines[0] && '\n' !in lines[1] && !EndsWithCR(lines[0]);
    SplitLinesJoin(lines);
    assert lines[1..] == ["World."];
    assert Join(lines, "\n") == "Hello.\nWorld.";
  }

  lemma TwoSentencesRender()
    ensures Render(["Hello.", "World."], "\n") == "Hello.\n\nWorld.\n\n"
  {
    var lines := ["Hello.", "World."];
    assert lines[1..] == ["World."] && lines[1..][1..] == [];
  }

  /** Two sentences without timing lines become two paragraphs. */
  lemma TwoSentences()
    ensures ReflowText("Hello.\nWorld.", "\n") == "Hello.\n\nWorld.\n\n"
  {
    TwoSentencesSplit();
    TwoSentencesKept();
    TwoSentencesRender();
  }

  /** The lines of the second example. */
  lemma OneCueKept()
    ensures Kept(["1", "0:01 --> 0:02", "Hi", "there!"]) == ["Hi", "there!"]
  {
    var lines := ["1", "0:01 --> 0:02", "Hi", "there!"];
    assert lines[1][4..9] == Arrow && lines[1][0..5][0] == '0';
    assert OccursAt(lines[1], Arrow, 4) && !OccursAt(lines[1], Arrow, 0);
    TimingLineIff(lines[1]);
    NoArrowWithoutHead(lines[2]);
    NoArrowWithoutHead(lines[3]);
    assert IsSkip(lines, 0) && IsSkip(lines, 1) && !IsSkip(lines, 2) && !IsSkip(lines, 3);
    assert Survivors(lines, 2) == [];
    assert Survivors(lines, 3) == ["Hi"];
  }

  lemma OneCueJoin()
    ensures Join(["1", "0:01 --> 0:02", "Hi", "there!"], "\n") == "1\n0:01 --> 0:02\nHi\nthere!"
  {
    var lines := ["1", "0:01 --> 0:02", "Hi", "there!"];
    var rest := ["0:01 --> 0:02", "Hi", "there!"];
    assert lines[1..] == rest && rest[1..] == ["Hi", "there!"] && rest[1..][1..] == ["there!"];
    var s3 := Join(["Hi", "there!"], "\n");
    var s2 := Join(rest, "\n");
    assert s3 == "Hi" + "\n" + "there!";
    assert s2 == "0:01 --> 0:02" + "\n" + s3;
    assert Join(lines, "\n") == "1" + "\n" + s2;
  }

  lemma OneCueSplit()
    ensures SplitLines("1\n0:01 --> 0:02\nHi\nthere!") == ["1", "0:01 --> 0:02", "Hi", "there!"]
  {
    var lines := ["1", "0:01 --> 0:02", "Hi", "there!"];
    assert forall i :: 0 <= i < |lines| ==> '\n' !in lines[i];
    assert forall i :: 0 <= i < |lines| - 1 ==> !EndsWithCR(lines[i]);
    SplitLinesJoin(lines);
    OneCueJoin();
  }

  lemma OneCueRender()
    ensures Render(["Hi", "there!"], "\r\n") == "Hi there!\r\n\r\n"
  {
    var kept := ["Hi", "there!"];
    assert kept[1..] == ["there!"] && kept[1..][1..] == [];
  }

  /** A cue: its index and timing lines are dropped and its text lines are
      joined by a space. */
  lemma OneCue()
    ensures ReflowText("1\n0:01 --> 0:02\nHi\nthere!", "\r\n") == "Hi there!\r\n\r\n"
  {
    OneCueSplit();
    OneCueKept();
    OneCueRender();
  }

  /** A line that starts with " --> " is not a timing line, wherever else
      " --> " occurs in it. */
  lemma ArrowAtStartIsText(line: string)
    requires OccursAt(line, Arrow, 0)
    ensures !IsTimingLine(line)
  {
    IndexOfCorrect(line, Arrow);
  }

  /** The line " --> 0:02 --> x" is text. */
  lemma ArrowAtStartExample()
    ensures !IsTimingLine(" --> 0:02 --> x")
  {
    var line := " --> 0:02 --> x";
    IndexOfCorrect(line, Arrow);
    assert line[0..5] == Arrow by {
      assert forall i :: 0 <= i < 5 ==> line[i] == Arrow[i];
    }
    assert OccursAt(line, Arrow, 0);
  }
}
