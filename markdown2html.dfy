/**
 The line-by-line Markdown-to-HTML rewrite of `convert_markdown_to_html`:
 every input line that matches `^(#+) (.*)$` becomes an `<hN>` element,
 every other line is kept with its trailing whitespace removed, and the
 resulting lines are joined with newlines.
 */
module Markdown2Html {
  import opened StrBuiltins

  datatype Option<T> = None | Some(value: T)

  /** What a successful match of `^(#+) (.*)$` captures: the length of
      group 1 and the text of group 2. */
  datatype Heading = Heading(level: nat, text: string)

  function Hashes(k: nat): string {
    seq(k, _ => '#')
  }

  /** A line as iterating over a text file yields it: a newline, if any,
      only as its last character. */
  predicate FileLine(line: string) {
    forall j :: 0 <= j < |line| - 1 ==> line[j] != '\n'
  }

  /** Python's `re.match(r"^(#+) (.*)$", line)` succeeds with these groups:
      one or more `#`, one space, text without a newline (`.` does not match
      one), then the end of the string or a single final newline (where `$`
      also matches when MULTILINE is off). */
  predicate IsHeadingLine(line: string, h: Heading) {
    && h.level >= 1
    && '\n' !in h.text
    && (line == Hashes(h.level) + " " + h.text || line == Hashes(h.level) + " " + h.text + "\n")
  }

  /** The length of the run of `#` that starts the string. */
  function HashRun(s: string): (k: nat)
    ensures k <= |s|
    ensures forall j :: 0 <= j < k ==> s[j] == '#'
    ensures k < |s| ==> s[k] != '#'
  {
    if |s| > 0 && s[0] == '#' then 1 + HashRun(s[1..]) else 0
  }

  /** What `.*$` leaves of the rest of the line: a single final newline,
      where `$` also matches, is not part of the text. */
  function DropFinalNewline(rest: string): string {
    if |rest| > 0 && rest[|rest| - 1] == '\n' then rest[..|rest| - 1] else rest
  }

  /** The heading pattern, written out: `#+` takes the whole leading run
      (the character after it must be the space, which is not `#`), `.*`
      takes everything up to an optional final newline. */
  function MatchHeading(line: string): (m: Option<Heading>)
    ensures m.Some? ==> IsHeadingLine(line, m.value)
  {
    var k := HashRun(line);
    if k == 0 || k == |line| || line[k] != ' ' then None
    else
      var text := DropFinalNewline(line[k + 1..]);
      if '\n' in text then None
      else
        assert line[..k] == Hashes(k);
        assert line == line[..k] + " " + line[k + 1..];
        Some(Heading(k, text))
  }

  /** The f-string `f"<h{heading_level}>{heading_text}</h{heading_level}>"`. */
  function HeadingTag(h: Heading): string {
    "<h" + Decimal(h.level) + ">" + h.text + "</h" + Decimal(h.level) + ">"
  }

  /** The rule applied to each line inside the loop. */
  function ConvertLine(line: string): string {
    match MatchHeading(line)
    case Some(h) => HeadingTag(h)
    case None => RStrip(line)
  }

  /** `#+` takes exactly the `k` hashes when no further `#` follows them. */
  lemma HashRunOfHashes(k: nat, s: string)
    requires s == [] || s[0] != '#'
    ensures HashRun(Hashes(k) + s) == k
  {
    var line := Hashes(k) + s;
    assert forall j :: 0 <= j < k ==> line[j] == '#';
    if s != [] {
      assert line[k] == s[0];
    }
  }

  /** A heading line without a final newline matches, with its groups. */
  lemma MatchHeadingPlain(k: nat, t: string)
    requires k >= 1 && '\n' !in t
    ensures MatchHeading(Hashes(k) + " " + t) == Some(Heading(k, t))
  {
    var line := Hashes(k) + " " + t;
    assert line == Hashes(k) + (" " + t);
    HashRunOfHashes(k, " " + t);
    assert line[k] == ' ';
    assert line[k + 1..] == t;
    if |t| > 0 {
      assert t[|t| - 1] in t;
    }
    assert DropFinalNewline(t) == t;
  }

  /** A heading line with a final newline matches, with its groups. */
  lemma MatchHeadingNewline(k: nat, t: string)
    requires k >= 1 && '\n' !in t
    ensures MatchHeading(Hashes(k) + " " + t + "\n") == Some(Heading(k, t))
  {
    var line := Hashes(k) + " " + t + "\n";
    assert line == Hashes(k) + (" " + t + "\n");
    HashRunOfHashes(k, " " + t + "\n");
    assert line[k] == ' ';
    assert line[k + 1..] == t + "\n";
    assert (t + "\n")[..|t|] == t;
    assert DropFinalNewline(t + "\n") == t;
  }

  /** The pattern accepts exactly the lines IsHeadingLine describes, with
      exactly the groups it names. */
  lemma MatchHeadingIff(line: string, h: Heading)
    ensures MatchHeading(line) == Some(h) <==> IsHeadingLine(line, h)
  {
    if IsHeadingLine(line, h) {
      if line == Hashes(h.level) + " " + h.text {
        MatchHeadingPlain(h.level, h.text);
      } else {
        MatchHeadingNewline(h.level, h.text);
      }
    }
  }

  /** `k` hashes, a space and a newline-free text `t`, with or without a
      final newline, become `<hk>t</hk>`. */
  lemma ConvertHeadingLine(k: nat, t: string, newline: bool)
    requires k >= 1 && '\n' !in t
    ensures ConvertLine(Hashes(k) + " " + t + (if newline then "\n" else ""))
         == "<h" + Decimal(k) + ">" + t + "</h" + Decimal(k) + ">"
  {
    var line := Hashes(k) + " " + t + (if newline then "\n" else "");
    if !newline {
      assert line == Hashes(k) + " " + t;
    }
    MatchHeadingIff(line, Heading(k, t));
  }

  /** The level in the tag is the length of the `#` run, read back as a
      number, with no upper bound. */
  lemma HeadingLevelIsRunLength(line: string)
    requires MatchHeading(line).Some?
    ensures MatchHeading(line).value.level == HashRun(line) >= 1
    ensures DecimalValue(Decimal(MatchHeading(line).value.level)) == HashRun(line)
  {
    DecimalRoundTrip(MatchHeading(line).value.level);
  }

  /** Seven hashes give `<h7>`: no level cap. */
  lemma SevenHashesGiveH7()
    ensures ConvertLine("####### Title\n") == "<h7>Title</h7>"
  {
    assert "<h" + Decimal(7) + ">" + "Title" + "</h" + Decimal(7) + ">" == "<h7>Title</h7>";
    assert "####### Title\n" == Hashes(7) + " " + "Title" + "\n";
    ConvertHeadingLine(7, "Title", true);
  }

  /** Empty heading text is accepted, with or without the final newline. */
  lemma EmptyHeadingText()
    ensures ConvertLine("# ") == "<h1></h1>"
    ensures ConvertLine("# \n") == "<h1></h1>"
  {
    assert "<h" + Decimal(1) + ">" + "" + "</h" + Decimal(1) + ">" == "<h1></h1>";
    assert "# " == Hashes(1) + " " + "" + "";
    ConvertHeadingLine(1, "", false);
    assert "# \n" == Hashes(1) + " " + "" + "\n";
    ConvertHeadingLine(1, "", true);
  }

  /** The heading text keeps its leading and trailing spaces; only the
      final newline is dropped. */
  lemma HeadingTextKeepsSpaces()
    ensures ConvertLine("#  x  \n") == "<h1> x  </h1>"
  {
    assert "<h" + Decimal(1) + ">" + " x  " + "</h" + Decimal(1) + ">" == "<h1> x  </h1>";
    assert "#  x  \n" == Hashes(1) + " " + " x  " + "\n";
    ConvertHeadingLine(1, " x  ", true);
  }

  /** A `#` run not followed by a space (`#Title`, `#\n`) is no heading:
      the line is emitted right-stripped. */
  lemma HashesWithoutSpace(k: nat, s: string)
    requires k >= 1
    requires s == [] || (s[0] != ' ' && s[0] != '#')
    ensures MatchHeading(Hashes(k) + s).None?
    ensures ConvertLine(Hashes(k) + s) == RStrip(Hashes(k) + s)
  {
    HashRunOfHashes(k, s);
  }

  /** A line that does not start with `#`, the empty line included, is no
      heading: it is emitted right-stripped. */
  lemma NoLeadingHash(line: string)
    requires line == [] || line[0] != '#'
    ensures MatchHeading(line).None?
    ensures ConvertLine(line) == RStrip(line)
  {
  }

  lemma NonHeadingExamples()
    ensures ConvertLine("#Title") == "#Title"
    ensures ConvertLine("#\n") == "#"
    ensures ConvertLine("") == ""
  {
    RStripUnique("#Title", "#Title");
    RStripUnique("#\n", "#");
    assert "#Title" == Hashes(1) + "Title";
    HashesWithoutSpace(1, "Title");
    assert "#\n" == Hashes(1) + "\n";
    HashesWithoutSpace(1, "\n");
  }

  /** The rendered heading holds a newline only if its text does. */
  lemma HeadingTagNoNewline(h: Heading)
    requires '\n' !in h.text
    ensures '\n' !in HeadingTag(h)
  {
    var d := Decimal(h.level);
    assert '\n' !in d by {
      assert forall j :: 0 <= j < |d| ==> '0' <= d[j] <= '9';
    }
    assert '\n' !in "<h" && '\n' !in ">" && '\n' !in "</h";
  }

  /** Right-stripping a file line removes its newline, if it has one. */
  lemma RStripFileLine(line: string)
    requires FileLine(line)
    ensures '\n' !in RStrip(line)
  {
    var r := RStrip(line);
    forall j | 0 <= j < |r|
      ensures r[j] != '\n'
    {
      if j < |r| - 1 {
        assert r[j] == line[j];
      } else {
        assert !IsSpace(r[j]);
      }
    }
  }

  /** No output line holds a newline: heading text cannot contain one and
      `rstrip` removes a final one. */
  lemma ConvertLineNoNewline(line: string)
    requires FileLine(line)
    ensures '\n' !in ConvertLine(line)
  {
    match MatchHeading(line)
    case Some(h) =>
      HeadingTagNoNewline(h);
    case None =>
      RStripFileLine(line);
  }

  /** The rendered heading starts with `<` and ends with `>`: it is no
      heading itself and `rstrip` leaves it alone. */
  lemma HeadingTagIsFixedPoint(h: Heading)
    ensures MatchHeading(HeadingTag(h)).None?
    ensures ConvertLine(HeadingTag(h)) == HeadingTag(h)
  {
    var out := HeadingTag(h);
    assert out[0] == '<';
    assert out[|out| - 1] == '>';
  }

  /** A right-stripped line that is a heading came from a line that was a
      heading already, as long as that line was a file line. */
  lemma StrippedHeadingWasHeading(line: string, h: Heading)
    requires FileLine(line)
    requires IsHeadingLine(RStrip(line), h)
    ensures MatchHeading(line).Some?
  {
    var r := RStrip(line);
    var w := line[|r|..];
    assert line == r + w;
    assert r[|r| - 1] !in "\n";
    assert r == Hashes(h.level) + " " + h.text;
    if '\n' in w {
      var j :| 0 <= j < |w| && w[j] == '\n';
      assert line[|r| + j] == '\n';
      assert j == |w| - 1;
      var t := h.text + w[..|w| - 1];
      assert '\n' !in t;
      assert line == Hashes(h.level) + " " + t + "\n";
      MatchHeadingIff(line, Heading(h.level, t));
    } else {
      var t := h.text + w;
      assert line == Hashes(h.level) + " " + t;
      MatchHeadingIff(line, Heading(h.level, t));
    }
  }

  /** Applying the rule to its own output changes nothing. */
  lemma ConvertLineIdempotent(line: string)
    requires FileLine(line)
    ensures ConvertLine(ConvertLine(line)) == ConvertLine(line)
  {
    match MatchHeading(line)
    case Some(h) =>
      HeadingTagIsFixedPoint(h);
    case None =>
      var r := RStrip(line);
      if MatchHeading(r).Some? {
        StrippedHeadingWasHeading(line, MatchHeading(r).value);
      }
      RStripIdempotent(line);
  }

  /** A line whose text is followed by two newlines is no match: `.*`
      cannot cross the first newline and `$` does not match before it. */
  lemma DoubleNewlineNoMatch(k: nat, t: string)
    requires k >= 1 && '\n' !in t
    ensures MatchHeading(Hashes(k) + " " + t + "\n\n").None?
  {
    var line := Hashes(k) + " " + t + "\n\n";
    assert line == Hashes(k) + (" " + t + "\n\n");
    HashRunOfHashes(k, " " + t + "\n\n");
    var rest := line[k + 1..];
    assert rest == t + "\n\n";
    assert DropFinalNewline(rest)[|t|] == '\n';
  }

  /** Without the file-line shape idempotence fails: a heading followed by
      two newlines is no match, `rstrip` removes both newlines, and the
      stripped line is a heading. */
  lemma DoubleNewlineHidesHeading(k: nat, t: string)
    requires k >= 1 && '\n' !in t
    requires t != [] && !IsSpace(t[|t| - 1])
    ensures ConvertLine(Hashes(k) + " " + t + "\n\n") == Hashes(k) + " " + t
    ensures ConvertLine(ConvertLine(Hashes(k) + " " + t + "\n\n"))
         == "<h" + Decimal(k) + ">" + t + "</h" + Decimal(k) + ">"
  {
    var p := Hashes(k) + " " + t;
    var line := p + "\n\n";
    DoubleNewlineNoMatch(k, t);
    assert line[..|p|] == p;
    RStripUnique(line, p);
    assert p + "" == p;
    ConvertHeadingLine(k, t, false);
  }

  /** The smallest instance: `"# a\n\n"` becomes `"# a"`, which converts
      again to `<h1>a</h1>`. */
  lemma IdempotenceNeedsFileLine()
    ensures ConvertLine("# a\n\n") == "# a"
    ensures ConvertLine(ConvertLine("# a\n\n")) == "<h1>a</h1>"
  {
    assert "<h" + Decimal(1) + ">" + "a" + "</h" + Decimal(1) + ">" == "<h1>a</h1>";
    assert "# a" == Hashes(1) + " " + "a";
    assert "# a\n\n" == Hashes(1) + " " + "a" + "\n\n";
    DoubleNewlineHidesHeading(1, "a");
  }

  /** `convert_markdown_to_html` once the input lines are in hand: build
      `html_lines` one line per input line, then join them with newlines
      (the written content). */
  method ConvertMarkdownToHtml(lines: seq<string>) returns (htmlLines: seq<string>, content: string)
    ensures |htmlLines| == |lines|
    ensures forall i :: 0 <= i < |lines| ==> htmlLines[i] == ConvertLine(lines[i])
    ensures content == Join(htmlLines)
    ensures |lines| == 0 ==> content == ""
    ensures (forall i :: 0 <= i < |lines| ==> FileLine(lines[i])) ==>
              && (forall i :: 0 <= i < |htmlLines| ==> '\n' !in htmlLines[i])
              && (|lines| >= 1 ==> Split(content) == htmlLines)
              && (|lines| >= 1 ==> multiset(content)['\n'] == |lines| - 1)
  {
    htmlLines := [];
    for n := 0 to |lines|
      invariant |htmlLines| == n
      invariant forall i :: 0 <= i < n ==> htmlLines[i] == ConvertLine(lines[i])
    {
      var line := lines[n];
      htmlLines := htmlLines + [ConvertLine(line)];
    }
    content := Join(htmlLines);
    if forall i :: 0 <= i < |lines| ==> FileLine(lines[i]) {
      forall i | 0 <= i < |htmlLines|
        ensures '\n' !in htmlLines[i]
      {
        ConvertLineNoNewline(lines[i]);
      }
      if |lines| >= 1 {
        SplitJoin(htmlLines);
        JoinNewlineCount(htmlLines);
      }
    }
  }
}
