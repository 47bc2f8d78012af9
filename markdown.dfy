/** The text helpers of the Markdown renderer: doc comment text turned into
    Markdown (dedentMarkdown, docMarkdown), the one-sentence summary of a doc
    comment, the bullet line of a summary table, and name matching. */
module Markdown {
  import opened Text

  /** The characters leadingWhitespace counts. */
  predicate IsIndent(c: char)
  {
    c == ' ' || c == '\t'
  }

  /** The length of the run of spaces and tabs that starts the line. */
  function Indent(line: string): (n: nat)
    ensures n <= |line|
    ensures forall k :: 0 <= k < n ==> IsIndent(line[k])
    ensures n < |line| ==> !IsIndent(line[n])
  {
    if |line| > 0 && IsIndent(line[0]) then 1 + Indent(line[1..]) else 0
  }

  /** leadingWhitespace */
  method LeadingWhitespace(line: string) returns (count: nat)
    ensures count == Indent(line)
  {
    count := 0;
    while count < |line| && IsIndent(line[count])
      invariant count <= |line|
      invariant forall k :: 0 <= k < count ==> IsIndent(line[k])
    {
      count := count + 1;
    }
  }

  /** The smallest indentation among the lines that are not blank, or -1
      when every line is blank. Blank means strings.TrimSpace gives "". */
  function MinIndent(lines: seq<string>): int
  {
    if lines == [] then -1
    else
      var m := MinIndent(lines[..|lines| - 1]);
      var line := lines[|lines| - 1];
      if AllSpace(line) then m
      else if m == -1 || Indent(line) < m then Indent(line)
      else m
  }

  /** MinIndent is -1 exactly when all lines are blank, and otherwise the
      indentation of some non-blank line and no more than that of any. */
  lemma {:induction false} MinIndentIsLeast(lines: seq<string>)
    ensures MinIndent(lines) == -1 <==> forall i :: 0 <= i < |lines| ==> AllSpace(lines[i])
    ensures forall i :: 0 <= i < |lines| && !AllSpace(lines[i]) ==> 0 <= MinIndent(lines) <= Indent(lines[i])
    ensures MinIndent(lines) >= 0 ==>
      exists i :: 0 <= i < |lines| && !AllSpace(lines[i]) && Indent(lines[i]) == MinIndent(lines)
  {
    if lines != [] {
      var init := lines[..|lines| - 1];
      MinIndentIsLeast(init);
      assert forall i :: 0 <= i < |init| ==> init[i] == lines[i];
      var m := MinIndent(lines);
      if m >= 0 && m != MinIndent(init) {
        assert Indent(lines[|lines| - 1]) == m;
      }
    }
  }

  /** One line with `m` characters removed from its front, unless it is shorter. */
  function Strip(line: string, m: nat): string
  {
    if |line| >= m then line[m..] else line
  }

  function StripAll(lines: seq<string>, m: nat): (r: seq<string>)
    ensures |r| == |lines|
  {
    seq(|lines|, i requires 0 <= i < |lines| => Strip(lines[i], m))
  }

  /** What dedentMarkdown returns: when some line is not blank and the
      least indentation of those lines is positive, that many characters
      come off the front of every line long enough; otherwise the text
      itself. */
  function Dedent(src: string): string
  {
    var lines := Split(src, '\n');
    var m := MinIndent(lines);
    if m <= 0 then src else Join(StripAll(lines, m), "\n")
  }

  /** dedentMarkdown. The second loop rewrites the lines in place. */
  method DedentMarkdown(src: string) returns (r: string)
    ensures r == Dedent(src)
  {
    var lines := Split(src, '\n');
    ghost var original := lines;
    var minIndent := -1;
    var i := 0;
    while i < |lines|
      invariant 0 <= i <= |lines|
      invariant minIndent == MinIndent(lines[..i])
    {
      var line := lines[i];
      assert lines[..i + 1][..i] == lines[..i];
      if TrimSpace(line) == "" {
        i := i + 1;
        continue;
      }
      var indent := LeadingWhitespace(line);
      if minIndent == -1 || indent < minIndent {
        minIndent := indent;
      }
      i := i + 1;
    }
    assert lines[..i] == lines;
    if minIndent <= 0 {
      return src;
    }
    i := 0;
    while i < |lines|
      invariant 0 <= i <= |lines| == |original|
      invariant forall k :: 0 <= k < i ==> lines[k] == Strip(original[k], minIndent)
      invariant forall k :: i <= k < |lines| ==> lines[k] == original[k]
    {
      var line := lines[i];
      if |line| >= minIndent {
        lines := lines[i := line[minIndent..]];
      }
      i := i + 1;
    }
    assert lines == StripAll(original, minIndent);
    r := Join(lines, "\n");
  }

  /** A line that is not blank keeps its non-blank character after its
      indentation is removed. */
  lemma StripKeepsText(line: string, m: nat)
    requires !AllSpace(line) && m <= Indent(line)
    ensures !AllSpace(Strip(line, m))
    ensures Strip(line, m) == line[m..]
    ensures Indent(Strip(line, m)) == Indent(line) - m
  {
    var k :| 0 <= k < |line| && !IsSpace(line[k]);
    assert forall j :: 0 <= j < m ==> IsSpace(line[j]);
    assert line[m..][k - m] == line[k];
    IndentAfter(line, m);
  }

  lemma {:induction false} IndentAfter(line: string, m: nat)
    requires m <= Indent(line)
    ensures Indent(line[m..]) == Indent(line) - m
    decreases m
  {
    if m > 0 {
      IndentAfter(line[1..], m - 1);
      assert line[1..][m - 1..] == line[m..];
    }
  }

  /** Removing nothing leaves every line as it is. */
  lemma StripNothing(lines: seq<string>)
    ensures StripAll(lines, 0) == lines
  {
    assert forall i :: 0 <= i < |lines| ==> lines[i][0..] == lines[i];
  }

  /** The lines of the dedented text are the lines of the text, each with
      the least indentation taken off (nothing, when that is not positive):
      no line is added, dropped or joined. */
  lemma DedentLines(src: string)
    ensures var m := MinIndent(Split(src, '\n'));
      Split(Dedent(src), '\n') == StripAll(Split(src, '\n'), if m > 0 then m else 0)
  {
    var lines := Split(src, '\n');
    var m := MinIndent(lines);
    if m <= 0 {
      StripNothing(lines);
      JoinSplit(src, '\n');
    } else {
      var out := StripAll(lines, m);
      forall i | 0 <= i < |out| ensures '\n' !in out[i] {
        var line := lines[i];
        if |line| >= m {
          forall k | 0 <= k < |out[i]| ensures out[i][k] != '\n' {
            assert out[i][k] == line[m + k];
          }
        }
      }
      SplitJoin(out, '\n');
    }
  }

  /** Only spaces and tabs are removed, and only ahead of each non-blank
      line's text: every non-blank line keeps what follows its first
      `m` characters, which were all indentation. */
  lemma DedentRemovesIndentOnly(src: string, i: nat)
    requires i < |Split(src, '\n')| && !AllSpace(Split(src, '\n')[i])
    requires MinIndent(Split(src, '\n')) > 0
    ensures |Split(Dedent(src), '\n')| == |Split(src, '\n')|
    ensures MinIndent(Split(src, '\n')) <= |Split(src, '\n')[i]|
    ensures var line := Split(src, '\n')[i]; var m := MinIndent(Split(src, '\n'));
      Split(Dedent(src), '\n')[i] == line[m..]
      && forall k :: 0 <= k < m ==> IsIndent(line[k])
  {
    var lines := Split(src, '\n');
    MinIndentIsLeast(lines);
    DedentLines(src);
  }

  /** After the least indentation is taken off, the least indentation is 0. */
  lemma StrippedMinIndent(lines: seq<string>)
    requires MinIndent(lines) > 0
    ensures MinIndent(StripAll(lines, MinIndent(lines))) == 0
  {
    var m := MinIndent(lines);
    var out := StripAll(lines, m);
    MinIndentIsLeast(lines);
    var j :| 0 <= j < |lines| && !AllSpace(lines[j]) && Indent(lines[j]) == m;
    StripKeepsText(lines[j], m);
    assert !AllSpace(out[j]) && Indent(out[j]) == 0;
    MinIndentIsLeast(out);
  }

  /** A text whose least indentation is not positive is left as it is. */
  lemma DedentUnchanged(src: string)
    requires MinIndent(Split(src, '\n')) <= 0
    ensures Dedent(src) == src
  {
  }

  /** Dedenting twice changes nothing more. */
  lemma DedentIdempotent(src: string)
    ensures Dedent(Dedent(src)) == Dedent(src)
  {
    var lines := Split(src, '\n');
    var m := MinIndent(lines);
    if m > 0 {
      var d := Dedent(src);
      assert Split(d, '\n') == StripAll(lines, m) by {
        DedentLines(src);
      }
      StrippedMinIndent(lines);
      DedentUnchanged(d);
    }
  }

  /** The first piece of a split of a string that starts with something
      other than the separator starts with that character. */
  lemma SplitFirst(s: string, sep: char)
    requires s != [] && s[0] != sep
    ensures Split(s, sep)[0] != [] && Split(s, sep)[0][0] == s[0]
  {
  }

  /** docMarkdown: the trimmed text, dedented, or "" when it is blank. */
  function DocMarkdown(text: string): string
  {
    var trimmed := TrimSpace(text);
    if trimmed == "" then "" else Dedent(trimmed)
  }

  /** After trimming, the first line starts with text, so the least
      indentation is 0 and the dedent never changes anything: the Markdown
      of a doc comment is the comment trimmed of white space. */
  lemma DocMarkdownIsTrimmed(text: string)
    ensures DocMarkdown(text) == TrimSpace(text)
  {
    var t := TrimSpace(text);
    if t != "" {
      var lines := Split(t, '\n');
      SplitFirst(t, '\n');
      assert !IsIndent(lines[0][0]);
      assert !AllSpace(lines[0]);
      MinIndentIsLeast(lines);
    }
  }

  /** The doc comment on one line: line breaks become spaces. */
  function Flattened(text: string): string
  {
    ReplaceChar(DocMarkdown(text), '\n', ' ')
  }

  /** summaryText */
  function SummaryText(text: string): string
  {
    Sentence(DocMarkdown(text))
  }

  /** What summaryText makes of the Markdown `md` of a comment: nothing for
      nothing, otherwise the text on one line, up to and including the '.'
      of its first ". ", trimmed. */
  function Sentence(md: string): string
  {
    if md == "" then ""
    else
      var flat := ReplaceChar(md, '\n', ' ');
      var idx := Index(flat, ". ");
      if idx >= 0 then TrimSpace(flat[..idx + 1]) else TrimSpace(flat)
  }

  /** A text that starts and ends in text still does once its line breaks
      are spaces. */
  lemma FlatEnds(md: string)
    requires md != [] && !IsSpace(md[0]) && !IsSpace(md[|md| - 1])
    ensures var flat := ReplaceChar(md, '\n', ' ');
      flat != [] && !IsSpace(flat[0]) && !IsSpace(flat[|flat| - 1])
  {
    var flat := ReplaceChar(md, '\n', ' ');
    assert flat[0] == md[0];
    assert flat[|flat| - 1] == md[|md| - 1];
  }

  /** The sentence of a trimmed text is empty only when the text is. */
  lemma SentenceEmpty(md: string)
    requires md == [] || (!IsSpace(md[0]) && !IsSpace(md[|md| - 1]))
    ensures Sentence(md) == "" <==> md == ""
  {
    if md != "" {
      var flat := ReplaceChar(md, '\n', ' ');
      FlatEnds(md);
      var idx := Index(flat, ". ");
      if idx >= 0 {
        var cut := flat[..idx + 1];
        assert cut[0] == flat[0];
        assert !AllSpace(cut);
      } else {
        assert !AllSpace(flat);
      }
    }
  }

  /** The summary is empty exactly when the doc comment is blank. */
  lemma SummaryEmpty(text: string)
    ensures SummaryText(text) == "" <==> AllSpace(text)
  {
    DocMarkdownIsTrimmed(text);
    SentenceEmpty(TrimSpace(text));
  }

  /** A sentence is one line. */
  lemma SentenceOneLine(md: string)
    ensures '\n' !in Sentence(md)
  {
    if md != "" {
      var flat := ReplaceChar(md, '\n', ' ');
      assert '\n' !in flat;
      var idx := Index(flat, ". ");
      if idx >= 0 {
        assert '\n' !in flat[..idx + 1];
        TrimSpaceChars(flat[..idx + 1], '\n');
      } else {
        TrimSpaceChars(flat, '\n');
      }
    }
  }

  /** The summary is one line. */
  lemma SummaryOneLine(text: string)
    ensures '\n' !in SummaryText(text)
  {
    SentenceOneLine(DocMarkdown(text));
  }

  /** `summary` is the first sentence of `flat`: the text up to and
      including the '.' of its first ". ", or all of it when no ". " occurs. */
  ghost predicate FirstSentence(flat: string, summary: string)
  {
    (!Contains(flat, ". ") ==> summary == flat)
    && (Contains(flat, ". ") ==>
          exists k :: OccursAt(flat, ". ", k) && summary == flat[..k + 1]
                   && forall j :: 0 <= j < k ==> !OccursAt(flat, ". ", j))
  }

  /** The text up to the first ". " is the first sentence. */
  lemma FirstSentenceAt(flat: string, k: nat, summary: string)
    requires OccursAt(flat, ". ", k) && summary == flat[..k + 1]
    requires forall j :: 0 <= j < k ==> !OccursAt(flat, ". ", j)
    ensures FirstSentence(flat, summary)
  {
  }

  /** Cutting a text that starts and ends in text after the '.' of its first
      ". " needs no trimming, and gives its first sentence. */
  lemma FirstSentenceTrimmed(flat: string)
    requires flat != [] && !IsSpace(flat[0]) && !IsSpace(flat[|flat| - 1])
    ensures var idx := Index(flat, ". ");
      FirstSentence(flat, if idx >= 0 then TrimSpace(flat[..idx + 1]) else TrimSpace(flat))
  {
    var idx := Index(flat, ". ");
    if idx >= 0 {
      var cut := flat[..idx + 1];
      assert flat[idx..idx + 2] == ". ";
      assert cut[|cut| - 1] == flat[idx] == '.';
      assert cut[0] == flat[0];
      TrimSpaceOfTrimmed(cut);
      FirstSentenceAt(flat, idx, cut);
    } else {
      TrimSpaceOfTrimmed(flat);
    }
  }

  /** The sentence of a text that starts and ends in text is the first
      sentence of its flattened form. */
  lemma SentenceIsFirst(md: string)
    requires md != [] && !IsSpace(md[0]) && !IsSpace(md[|md| - 1])
    ensures FirstSentence(ReplaceChar(md, '\n', ' '), Sentence(md))
  {
    FlatEnds(md);
    FirstSentenceTrimmed(ReplaceChar(md, '\n', ' '));
  }

  /** The summary is the first sentence of the flattened doc comment.
      Nothing is trimmed beyond that, as the flattened text already starts
      and ends in text. */
  lemma SummaryFirstSentence(text: string)
    requires !AllSpace(text)
    ensures FirstSentence(Flattened(text), SummaryText(text))
  {
    DocMarkdownIsTrimmed(text);
    SentenceIsFirst(TrimSpace(text));
  }

  /** Replacing a character that does not occur changes nothing. */
  lemma ReplaceAbsent(s: string, from: char, to: char)
    requires from !in s
    ensures ReplaceChar(s, from, to) == s
  {
  }

  /** In the example comment, ". " occurs at index 6 and not before. */
  lemma ExampleFirstStop(t: string)
    requires t == "Does X. Does Y."
    ensures OccursAt(t, ". ", 6)
    ensures forall j :: 0 <= j < 6 ==> !OccursAt(t, ". ", j)
  {
    assert t[6..8] == ". ";
    forall j | 0 <= j < 6 ensures !OccursAt(t, ". ", j) {
      assert t[j] != '.';
    }
  }

  /** The example comment is its own flattened text. */
  lemma ExampleFlattened(t: string)
    requires t == "Does X. Does Y."
    ensures !AllSpace(t) && Flattened(t) == t
  {
    assert !IsSpace(t[0]) && !IsSpace(t[|t| - 1]);
    TrimSpaceOfTrimmed(t);
    DocMarkdownIsTrimmed(t);
    assert forall k :: 0 <= k < |t| ==> t[k] != '\n';
    ReplaceAbsent(t, '\n', ' ');
  }

  /** The first sentence of the example comment. */
  lemma ExampleSentence(t: string, summary: string)
    requires t == "Does X. Does Y."
    requires FirstSentence(t, summary)
    ensures summary == "Does X."
  {
    ExampleFirstStop(t);
    var k :| OccursAt(t, ". ", k) && summary == t[..k + 1]
           && forall j :: 0 <= j < k ==> !OccursAt(t, ". ", j);
    assert k == 6;
    assert t[..7] == "Does X.";
  }

  /** The summary of a two-sentence comment is its first sentence. */
  lemma SummaryExample()
    ensures SummaryText("Does X. Does Y.") == "Does X."
  {
    var t := "Does X. Does Y.";
    ExampleFlattened(t);
    SummaryFirstSentence(t);
    ExampleSentence(t, SummaryText(t));
  }

  /** The em dash between a signature and its summary. */
  const Dash: string := "\U{2014}"

  /** bulletLine */
  function BulletLine(signature: string, summary: string): string
  {
    if summary == "" then "- `" + signature + "`"
    else "- `" + signature + "` " + Dash + " " + summary
  }

  /** A bullet line is one line when its parts are. */
  lemma BulletLineOneLine(signature: string, summary: string)
    requires '\n' !in signature && '\n' !in summary
    ensures '\n' !in BulletLine(signature, summary)
  {
  }

  /** A bullet line shows the signature as code and, after the dash, the
      summary; the two are recovered from it. */
  lemma BulletLineParts(signature: string, summary: string)
    ensures var b := BulletLine(signature, summary); var head := "- `" + signature + "`";
      HasPrefix(b, head)
      && (summary == "" <==> b == head)
      && (summary != "" ==> b[|head|..] == " " + Dash + " " + summary)
  {
    var b := BulletLine(signature, summary);
    var head := "- `" + signature + "`";
    if summary != "" {
      assert b == head + (" " + Dash + " " + summary);
    }
  }

  /** ASCII case folding. */
  function Fold(c: char): char
  {
    if 'A' <= c <= 'Z' then (c as int + 32) as char else c
  }

  /** strings.EqualFold, for ASCII letters. */
  predicate EqualFold(a: string, b: string)
  {
    |a| == |b| && forall k :: 0 <= k < |a| ==> Fold(a[k]) == Fold(b[k])
  }

  /** matchName: exact comparison, or comparison without case. */
  predicate MatchName(caseSensitive: bool, name: string, target: string)
  {
    if caseSensitive then name == target else EqualFold(name, target)
  }

  /** Matching is an equivalence, and an exact match matches in either mode. */
  lemma MatchNameEquivalence(caseSensitive: bool, a: string, b: string, c: string)
    ensures MatchName(caseSensitive, a, a)
    ensures MatchName(caseSensitive, a, b) ==> MatchName(caseSensitive, b, a)
    ensures MatchName(caseSensitive, a, b) && MatchName(caseSensitive, b, c) ==> MatchName(caseSensitive, a, c)
    ensures MatchName(true, a, b) ==> MatchName(caseSensitive, a, b)
  {
  }

  /** Without case sensitivity, "greeter" finds "Greeter"; with it, it does not. */
  lemma MatchNameExample()
    ensures MatchName(false, "Greeter", "greeter")
    ensures !MatchName(true, "Greeter", "greeter")
  {
    assert Fold('G') == 'g';
    assert "Greeter"[0] != "greeter"[0];
  }

  /** One of the names matches. */
  predicate NamedIn(caseSensitive: bool, names: seq<string>, name: string)
  {
    exists i :: 0 <= i < |names| && MatchName(caseSensitive, names[i], name)
  }

  /** valueHasName */
  method ValueHasName(caseSensitive: bool, names: seq<string>, name: string) returns (found: bool)
    ensures found <==> NamedIn(caseSensitive, names, name)
  {
    var i := 0;
    while i < |names|
      invariant 0 <= i <= |names|
      invariant forall k :: 0 <= k < i ==> !MatchName(caseSensitive, names[k], name)
    {
      if MatchName(caseSensitive, names[i], name) {
        return true;
      }
      i := i + 1;
    }
    return false;
  }

  /** valueTitle: the names of a declaration group, comma separated. */
  function ValueTitle(names: seq<string>): string
  {
    Join(names, ", ")
  }

  /** The title of a group is one line when its names are. */
  lemma {:induction false} ValueTitleOneLine(names: seq<string>)
    requires forall i :: 0 <= i < |names| ==> '\n' !in names[i]
    ensures '\n' !in ValueTitle(names)
  {
    if |names| > 1 {
      ValueTitleOneLine(names[1..]);
      assert ValueTitle(names) == names[0] + ", " + ValueTitle(names[1..]);
    }
  }
}
