# subtitles-to-text: the reflow of SRT captions into prose

The program reads every `.srt` file of a folder, joins their contents with
`'\n'`, and turns the result into running prose. It splits the text into
lines on `\r?\n`. It then walks the lines in order and drops every line that
is empty, every timing line (a line whose first `" --> "` is at a position
greater than 0) and every cue-index line (a line whose successor is a timing
line). Every other line is appended to the result, followed by a paragraph
break (the platform end-of-line marker twice) when it ends in `.`, `!` or
`?`, and by one space otherwise.

This project models that core in three modules:

- `TextSearch` (`text_search.dfy`): `indexOf` as JavaScript defines it, the
  first position of a substring or -1, counted in characters.
- `LineSplit` (`line_split.dfy`): `split(/\r?\n/)` as a function on strings,
  with both round trips against `join("\n")`.
- `Reflow` (`reflow.dfy`): the skip-line classifier, the loop that builds
  `result` (a method with a loop invariant), and the specification it is
  proved against. `Render(Kept(SplitLines(content)), eol)` is the result; the
  lemmas say which lines are kept, in which order, what follows each one and
  how long the result is.

The platform end-of-line marker (`os.EOL`) is the parameter `eol`. The
joined file contents are the parameter `content` of `ReflowContent`.

A timing line is modelled exactly as `line.indexOf(' --> ') > 0` behaves:
only the first occurrence of `" --> "` counts. A line that starts with
`" --> "` is therefore text, even if `" --> "` occurs in it again later
(`Reflow.ArrowAtStartIsText`). The result is one string with a separator
after every kept line, including the last.

## Model

| member | source | states |
|---|---|---|
| `TextSearch.IndexOf` | index.js:33-34 | The result is -1 or a position at which the whole pattern fits inside the string. |
| `TextSearch.IndexOfCorrect` | index.js:33-34 | `indexOf` returns -1 exactly when the pattern occurs nowhere; otherwise the pattern occurs at the result and at no earlier position. |
| `LineSplit.SplitLines` | index.js:23 | The split yields at least one piece, and no piece contains `'\n'`. |
| `LineSplit.SplitLinesCount` | index.js:23 | There is exactly one more piece than the input has `'\n'` characters. |
| `LineSplit.JoinSplitLines` | index.js:23 | Joining the pieces with `"\n"` gives the input with every `"\r\n"` replaced by `"\n"`. |
| `LineSplit.SplitLinesJoin` | index.js:23 | Splitting lines joined by `"\n"` gives those lines back, when no line has a `'\n'` and no line but the last ends with `'\r'`. |
| `Reflow.IsTimingLine` | index.js:33 | A timing line is longer than `" --> "` itself. |
| `Reflow.IsSkip` | index.js:32-34 | An empty line is always skipped; the last line, which has no successor, is skipped exactly when it is empty or a timing line. |
| `Reflow.KeptIndices` | index.js:29-36 | At most `n` of the first `n` indices are kept, and each kept index is below `n`. |
| `Reflow.Survivors` | index.js:29-36 | At most `n` of the first `n` lines survive. |
| `Reflow.SurvivorsClean` | index.js:32-36 | No surviving line is empty or a timing line. |
| `Reflow.Kept` | index.js:29-36 | There are no more kept lines than input lines, and none of them is empty or a timing line. |
| `Reflow.Render` | index.js:25-43 | The rendered text has at least one character per kept line. |
| `Reflow.ReflowText` | index.js:23-44 | The result is empty exactly when no line is kept. |
| `Reflow.ReflowContent` | index.js:23-44 | The loop's `result` equals the specification: the kept lines of the split input, each followed by its separator. |
| `Reflow.KeptIndicesExact` | index.js:29-36 | An index is kept exactly when it is not a skip line; kept indices are strictly increasing; the j-th kept line is the input line at the j-th kept index. |
| `Reflow.SkipRules` | index.js:32-34 | Empty lines, timing lines and lines before a timing line are never kept; the last line is kept whenever it is non-empty and not a timing line; any line passing the three tests is kept. |
| `Reflow.TimingLineIff` | index.js:33 | A line is a timing line exactly when `" --> "` occurs in it and does not occur at position 0. |
| `Reflow.NoTimingKeepsNonEmpty` | index.js:29-36 | When no line is a timing line, the kept lines are exactly the non-empty lines, in order. |
| `Reflow.EmptyInput` | index.js:23-44 | An empty input splits into one empty line and produces an empty result. |
| `Reflow.SeparatorIff` | index.js:39-43 | For every `eol`, the separator is `eol + eol` if and only if `EndsSentence` holds, and `" "` if and only if it does not; `EndsSentence` is the `/[.!?]$/` test of index.js:39, true when the last character is `.`, `!` or `?`. |
| `Reflow.RenderLength` | index.js:25-43 | The result's length is the sum over kept lines of the line's length plus 1, or twice the length of `eol` after a sentence end. |
| `Reflow.RenderPieces` | index.js:38-43 | The j-th kept line stands in the result at the j-th offset, followed directly by its separator, which ends where the next kept line begins. |
| `Reflow.ReflowShape` | index.js:23-44 | For the whole program: the j-th kept line is a non-skipped input line, it appears in the result at the j-th offset and is followed directly by its separator, and the result has the total length. |
| `Reflow.TwoSentences` | index.js:23-44 | `"Hello.\nWorld."` becomes `"Hello.\n\nWorld.\n\n"` with `eol = "\n"`. |
| `Reflow.OneCue` | index.js:23-44 | For the one input `"1\n0:01 --> 0:02\nHi\nthere!"` with `eol = "\r\n"`: the cue's index and timing lines are dropped, and its two text lines are joined by a space and closed by a paragraph break, giving `"Hi there!\r\n\r\n"`. |
| `Reflow.ArrowAtStartIsText` | index.js:33 | Every line in which `" --> "` occurs at position 0 is not a timing line, wherever else `" --> "` occurs in it. |
| `Reflow.ArrowAtStartExample` | index.js:33 | For the one line `" --> 0:02 --> x"`, which holds `" --> "` twice: it is not a timing line. |

## Left out

- Command-line handling and the usage message (index.js:7-11) and the final
  `console.log` (index.js:50): process I/O.
- Listing the folder, keeping only regular files with a `.srt` extension, and
  reading them (index.js:17-20): filesystem calls. The joined contents
  (index.js:21) are the input `content`.
- Writing `result` to `<folder>.txt` (index.js:48): filesystem I/O.
- The value of `os.EOL` (index.js:40): it depends on the platform and is the
  parameter `eol`.
- JavaScript strings are sequences of UTF-16 code units; the model uses
  Dafny characters. `line.length` (index.js:32) is only compared with 0, so
  this matters only for the members that state lengths or positions:
  `TextSearch.IndexOfFrom`, `TextSearch.IndexOf` and
  `TextSearch.IndexOfCorrect` return and describe character positions, and
  `Reflow.RenderLength`, `Reflow.RenderPieces`, `Reflow.ReflowShape`,
  `Reflow.Offset` and `Reflow.TotalLength` count characters, where
  JavaScript counts code units. It does not change `Reflow.IsTimingLine`:
  the first occurrence of `" --> "` is at position 0 in characters exactly
  when it is at position 0 in code units.
