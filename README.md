# markdown2html in Dafny

A model of the line-by-line rewrite done by `convert_markdown_to_html` in
`markdown2html.py`. The function reads the Markdown file line by line and
builds a list `html_lines`, one entry per input line:

- a line that matches the regular expression `^(#+) (.*)$` becomes
  `<hN>text</hN>`, where N is the length of the leading `#` run and `text` is
  everything after the one separating space, up to an optional final newline;
- any other line is kept with its trailing whitespace removed (`rstrip()`).

The content written to the output file is `"\n".join(html_lines)`, with no
newline after the last line.

The project has two modules:

- `StrBuiltins` (`str_builtins.dfy`) models the Python string built-ins the
  script relies on. These are `str.isspace()` and `str.rstrip()`, the
  decimal rendering of an `int` in an f-string, and `"\n".join`. It also
  defines `str.split("\n")`, which serves as the inverse of the join.
- `Markdown2Html` (`markdown2html.dfy`) models the script itself. It writes
  the regular expression out by hand as `HashRun` and `MatchHeading`, next to
  an independent description of the lines it accepts, `IsHeadingLine`. It then
  defines the per-line rule `ConvertLine` and the driver method
  `ConvertMarkdownToHtml`, whose loop builds `htmlLines` and then joins them.

Python semantics written out explicitly:

- `$` without MULTILINE matches at the end of the string and also just before
  a final `'\n'`. `.` matches any character except `'\n'`. The heading text is
  therefore newline-free and keeps its spaces. The pattern uses `.*`, not
  `.+`, so the text may be empty: `"# "` becomes `<h1></h1>`.
- `#+` is greedy, and the character after the run must be a space. So group 1
  is always the whole leading run of `#`. Its length is echoed as the level,
  with no upper bound: seven `#` give `<h7>`.
- `rstrip()` removes the characters for which `str.isspace()` holds:
  U+0009–U+000D, U+001C–U+001F, U+0020, U+0085, U+00A0, U+1680,
  U+2000–U+200A, U+2028, U+2029, U+202F, U+205F and U+3000.
- A line as produced by iterating over a text file (`FileLine`) has a newline
  at most once, and only as its last character. The no-newline and
  idempotence results need this shape. `IdempotenceNeedsFileLine` shows that
  idempotence fails without it.

## Model

| member | source | states |
|---|---|---|
| `StrBuiltins.IsSpace` | markdown2html.py:30 | the whitespace set behind `rstrip()`; a predicate with no contract of its own, used by the contract of `RStrip` |
| `StrBuiltins.RStrip` | markdown2html.py:30 | the stripped line is a prefix of the line, every removed character is whitespace, and the result is empty or ends in a non-whitespace character |
| `StrBuiltins.RStripUnique` | markdown2html.py:30 | those three properties determine the result of `rstrip` uniquely |
| `StrBuiltins.RStripIdempotent` | markdown2html.py:30 | stripping the stripped line again changes nothing |
| `StrBuiltins.Decimal` | markdown2html.py:28 | the f-string rendering of the level is a non-empty run of decimal digits that starts with `0` only for the level 0 |
| `StrBuiltins.DecimalRoundTrip` | markdown2html.py:26-28 | reading the rendered digits back as a number gives the level that was rendered |
| `StrBuiltins.Join` | markdown2html.py:34 | `"\n".join`; no contract of its own: its properties are stated by `SplitJoin`, `JoinSplit`, `JoinAppend` and `JoinNewlineCount` |
| `StrBuiltins.JoinSplit` | markdown2html.py:34 | joining the pieces of `s.split("\n")` with `"\n"` gives back `s` |
| `StrBuiltins.SplitJoin` | markdown2html.py:34 | splitting the joined content on `"\n"` recovers the list exactly, when it has at least one element and no element contains a newline |
| `StrBuiltins.JoinNewlineCount` | markdown2html.py:34 | joining n ≥ 1 newline-free lines puts exactly n - 1 newlines into the content |
| `StrBuiltins.JoinAppend` | markdown2html.py:34 | the join of a non-empty list plus one more line is the old join, one separator and that line, with nothing after it |
| `Markdown2Html.HashRun` | markdown2html.py:24 | the count is the length of the leading `#` run: every character before it is `#` and the next one, if any, is not |
| `Markdown2Html.MatchHeading` | markdown2html.py:24-27 | a successful match gives a level ≥ 1 and a newline-free text such that the line is that many `#`, a space, the text and an optional final newline |
| `Markdown2Html.HeadingTag` | markdown2html.py:28 | the f-string `<h{level}>{text}</h{level}>`; no contract of its own: `HeadingTagNoNewline` and `HeadingTagIsFixedPoint` state its properties |
| `Markdown2Html.ConvertLine` | markdown2html.py:24-30 | the per-line rule; no contract of its own: its properties are stated by `ConvertHeadingLine`, `MatchHeadingIff`, `NoLeadingHash`, `HashesWithoutSpace`, `ConvertLineNoNewline` and `ConvertLineIdempotent` |
| `Markdown2Html.HashRunOfHashes` | markdown2html.py:24 | `#+` takes exactly k `#` when the character after them is not `#` |
| `Markdown2Html.MatchHeadingPlain` | markdown2html.py:24-27 | k ≥ 1 `#`, a space and newline-free text t, with no final newline, match with level k and text t |
| `Markdown2Html.MatchHeadingNewline` | markdown2html.py:24-27 | the same line followed by one final newline matches with the same level and text, without the newline |
| `Markdown2Html.MatchHeadingIff` | markdown2html.py:24-27 | the hand-written match succeeds with the groups `h` exactly when the line has the shape `IsHeadingLine` describes for `h`, in both directions |
| `Markdown2Html.ConvertHeadingLine` | markdown2html.py:24-28 | k ≥ 1 `#`, a space and newline-free text t, with or without a final newline, convert to `<hk>t</hk>` |
| `Markdown2Html.HeadingLevelIsRunLength` | markdown2html.py:26 | the level of a match is the length of the leading `#` run, at least 1, and the number rendered in the tag reads back as that length, with no cap |
| `Markdown2Html.SevenHashesGiveH7` | markdown2html.py:26-28 | seven `#` give `<h7>Title</h7>` |
| `Markdown2Html.EmptyHeadingText` | markdown2html.py:24-28 | `"# "` and `"# \n"` both give `<h1></h1>`: the text may be empty |
| `Markdown2Html.HeadingTextKeepsSpaces` | markdown2html.py:24-28 | `"#  x  \n"` gives `<h1> x  </h1>`: the text keeps its leading and trailing spaces and loses only the final newline |
| `Markdown2Html.HashesWithoutSpace` | markdown2html.py:24-30 | a `#` run followed by neither a space nor another `#`, or by nothing, is not a heading, and the line is emitted right-stripped |
| `Markdown2Html.NoLeadingHash` | markdown2html.py:24-30 | a line that is empty or does not start with `#` is not a heading and is emitted right-stripped |
| `Markdown2Html.NonHeadingExamples` | markdown2html.py:24-30 | `"#Title"` stays `"#Title"`, `"#\n"` becomes `"#"`, and `""` stays `""` |
| `Markdown2Html.HeadingTagNoNewline` | markdown2html.py:28 | a rendered heading contains a newline only if its text does |
| `Markdown2Html.RStripFileLine` | markdown2html.py:30 | right-stripping a file line leaves no newline in it |
| `Markdown2Html.ConvertLineNoNewline` | markdown2html.py:24-30 | no converted file line contains a newline |
| `Markdown2Html.HeadingTagIsFixedPoint` | markdown2html.py:28 | a rendered heading is not itself a heading, and converting it again leaves it unchanged |
| `Markdown2Html.StrippedHeadingWasHeading` | markdown2html.py:24-30 | if right-stripping a file line yields a heading, the file line was a heading already |
| `Markdown2Html.ConvertLineIdempotent` | markdown2html.py:24-30 | converting the output of a file line again changes nothing |
| `Markdown2Html.DoubleNewlineNoMatch` | markdown2html.py:24 | k `#`, a space and newline-free text followed by two newlines do not match the pattern |
| `Markdown2Html.DoubleNewlineHidesHeading` | markdown2html.py:24-30 | such a line, when its text ends in a non-whitespace character, converts to the stripped line, and converting that again gives `<hk>t</hk>`: idempotence needs the file-line shape |
| `Markdown2Html.IdempotenceNeedsFileLine` | markdown2html.py:24-30 | for `"# a\n\n"`, which is not a file line, a second conversion turns `"# a"` into `<h1>a</h1>` |
| `Markdown2Html.ConvertMarkdownToHtml` | markdown2html.py:20-34 | the result has one output line per input line, in order, and output line i is the rule applied to input line i alone; the content is their `"\n"` join, which is `""` for no lines; for file lines, no output line contains a newline, splitting the content on newlines recovers the output lines, and n ≥ 1 lines give exactly n - 1 newlines |

## Left out

- The check that the input path exists and is a regular file, the message on
  stderr and `sys.exit(1)` (markdown2html.py:15-17): filesystem access and
  process control.
- Opening and reading the input file (markdown2html.py:20) and writing the
  output file (markdown2html.py:33-34), and the writer's newline translation:
  the text-mode write turns each `'\n'` into the platform's line separator.
  The model takes the input lines as a sequence of strings and returns the
  content before that translation.
- The decoding of the file as UTF-8, and the universal-newline translation
  done by the reader. A `"\r\n"` that reached the model untranslated would
  keep its `'\r'` in heading text, since `.` matches it.
- The command-line argument count check, the usage message and the exit codes
  (markdown2html.py:36-50): process plumbing.
- Python's general `re` engine. Only the one fixed pattern is modelled, as
  `MatchHeading`.
- `StrBuiltins.IsSpace` is fixed to the whitespace set of current Python
  releases. Python derives this set from its Unicode database, and older
  releases also counted U+180E.
