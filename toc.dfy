/** The table of contents written into the root README of a package tree,
    and how it is appended after the root package's own documentation. */
module Toc {
  import opened Text

  /** One line of the table: title, link target and one-line summary. */
  datatype TocEntry = TocEntry(title: string, link: string, summary: string)

  /** The separator between link and summary in a table line, as the three
      characters that appear in run.go (the UTF-8 bytes of an em dash read
      as Windows-1252 and re-encoded). */
  const TocSeparator: string := "\U{E2}\U{20AC}\U{201D}"

  const TocHeading: string := "## Packages"

  /** One line of the table, without its line break. */
  function TocLineText(e: TocEntry): string
  {
    if e.summary != "" then "- [" + e.title + "](" + e.link + ") " + TocSeparator + " " + e.summary
    else "- [" + e.title + "](" + e.link + ")"
  }

  /** The table lines of the entries, in order. */
  function LineTexts(entries: seq<TocEntry>): (ls: seq<string>)
    ensures |ls| == |entries|
  {
    seq(|entries|, i requires 0 <= i < |entries| => TocLineText(entries[i]))
  }

  /** What buildTOC returns: nothing for no entries; otherwise the heading,
      a blank line, the entry lines and a blank line. */
  function TOC(entries: seq<TocEntry>): string
  {
    if entries == [] then "" else TocHeading + "\n\n" + Terminated(LineTexts(entries)) + "\n"
  }

  /** One more entry line written after `head`. */
  lemma TocExtend(head: string, entries: seq<TocEntry>, i: nat)
    requires i < |entries|
    ensures head + Terminated(LineTexts(entries[..i + 1]))
         == head + Terminated(LineTexts(entries[..i])) + TocLineText(entries[i]) + "\n"
  {
    var ls, x := LineTexts(entries[..i]), TocLineText(entries[i]);
    assert LineTexts(entries[..i + 1]) == ls + [x];
    TerminatedSnoc(ls, x);
    Assoc3(head, Terminated(ls), x, "\n");
  }

  /** buildTOC, writing into a buffer. */
  method BuildTOC(entries: seq<TocEntry>) returns (toc: string)
    ensures toc == TOC(entries)
  {
    if |entries| == 0 {
      return "";
    }
    var buf := "## Packages\n\n";
    ghost var head := buf;
    assert LineTexts(entries[..0]) == [];
    var i := 0;
    while i < |entries|
      invariant 0 <= i <= |entries|
      invariant buf == head + Terminated(LineTexts(entries[..i]))
    {
      var entry := entries[i];
      var line;
      if entry.summary != "" {
        line := "- [" + entry.title + "](" + entry.link + ") " + "\U{E2}\U{20AC}\U{201D}" + " " + entry.summary;
      } else {
        line := "- [" + entry.title + "](" + entry.link + ")";
      }
      assert line == TocLineText(entry);
      TocExtend(head, entries, i);
      buf := buf + line + "\n";
      i := i + 1;
    }
    assert entries[..|entries|] == entries;
    buf := buf + "\n";
    return buf;
  }

  /** The entries contain no line break. */
  predicate SingleLine(entries: seq<TocEntry>)
  {
    forall i :: 0 <= i < |entries| ==>
      '\n' !in entries[i].title && '\n' !in entries[i].link && '\n' !in entries[i].summary
  }

  lemma TocLineTextSingle(e: TocEntry)
    requires '\n' !in e.title && '\n' !in e.link && '\n' !in e.summary
    ensures '\n' !in TocLineText(e)
  {
    assert '\n' !in TocSeparator;
  }

  /** The entry lines contain no line break. */
  lemma LineTextsSingle(entries: seq<TocEntry>)
    requires SingleLine(entries)
    ensures forall i :: 0 <= i < |entries| ==> '\n' !in LineTexts(entries)[i]
  {
    forall i | 0 <= i < |entries|
      ensures '\n' !in LineTexts(entries)[i]
    {
      TocLineTextSingle(entries[i]);
    }
  }

  /** A line and a blank line in front of text that splits into `parts`. */
  lemma HeadedSplit(h: string, body: string, parts: seq<string>)
    requires '\n' !in h && Split(body, '\n') == parts
    ensures Split(h + "\n\n" + body, '\n') == [h, ""] + parts
  {
    SplitLine("", body);
    SplitLine(h, "" + "\n" + body);
    assert h + "\n\n" + body == h + "\n" + ("" + "\n" + body);
  }

  /** buildTOC's output, read line by line: the heading, a blank line, one
      line per entry in the given order, and the blank line that ends it. */
  lemma TocLayout(entries: seq<TocEntry>)
    requires entries != [] && SingleLine(entries)
    ensures Split(TOC(entries), '\n') == [TocHeading, ""] + LineTexts(entries) + ["", ""]
  {
    var ls := LineTexts(entries);
    LineTextsSingle(entries);
    PrintedLines(ls);
    assert '\n' !in TocHeading;
    HeadedSplit(TocHeading, Terminated(ls) + "\n", ls + ["", ""]);
    Assoc(TocHeading + "\n\n", Terminated(ls), "\n");
    Assoc([TocHeading, ""], ls, ["", ""]);
  }

  /** appendTOCAfterDoc, as a value. */
  function AppendToc(doc: string, toc: string): string
  {
    if |toc| == 0 then doc
    else if |doc| == 0 then toc
    else if HasSuffix(doc, "\n\n") then doc + toc
    else if HasSuffix(doc, "\n") then doc + "\n" + toc
    else doc + "\n\n" + toc
  }

  /** appendTOCAfterDoc */
  method AppendTOCAfterDoc(doc: string, toc: string) returns (content: string)
    ensures content == AppendToc(doc, toc)
  {
    if |toc| == 0 {
      return doc;
    }
    if |doc| == 0 {
      return toc;
    }
    content := doc;
    if !HasSuffix(content, "\n\n") {
      if HasSuffix(content, "\n") {
        content := content + "\n";
      } else {
        content := content + "\n\n";
      }
    }
    content := content + toc;
  }

  /** The line breaks put between a non-empty document and the table. */
  function Padding(doc: string): string
  {
    if HasSuffix(doc, "\n\n") then "" else if HasSuffix(doc, "\n") then "\n" else "\n\n"
  }

  /** After a document ending in a single line break, one more makes a blank line. */
  lemma PadOne(doc: string)
    requires HasSuffix(doc, "\n") && !HasSuffix(doc, "\n\n")
    ensures HasSuffix(doc + "\n", "\n\n")
  {
    var n := |doc|;
    assert doc[n - 1] == '\n';
    assert (doc + "\n")[n - 1..] == [doc[n - 1], '\n'];
  }

  /** After a document not ending in a line break, two make a blank line and one does not. */
  lemma PadTwo(doc: string)
    requires |doc| > 0 && !HasSuffix(doc, "\n")
    ensures HasSuffix(doc + "\n\n", "\n\n")
    ensures !HasSuffix(doc + "\n", "\n\n")
  {
    var n := |doc|;
    assert doc[n - 1..] == [doc[n - 1]];
    assert (doc + "\n")[n - 1..] == [doc[n - 1], '\n'];
    assert (doc + "\n\n")[n..] == "\n\n";
  }

  /** The table follows the document after its padding. */
  lemma AppendTocPadded(doc: string, toc: string)
    requires |doc| > 0 && |toc| > 0
    ensures AppendToc(doc, toc) == doc + Padding(doc) + toc
  {
    if HasSuffix(doc, "\n\n") {
      assert doc + "" == doc;
    }
  }

  /** The padding ends the document with a blank line. */
  lemma PaddingEndsBlank(doc: string)
    requires |doc| > 0
    ensures HasSuffix(doc + Padding(doc), "\n\n")
  {
    if HasSuffix(doc, "\n\n") {
      assert doc + "" == doc;
    } else if HasSuffix(doc, "\n") {
      PadOne(doc);
    } else {
      PadTwo(doc);
    }
  }

  /** Nothing is added exactly when the document already ends with a blank line. */
  lemma PaddingNone(doc: string)
    ensures Padding(doc) == "" <==> HasSuffix(doc, "\n\n")
  {
  }

  /** No line break is added that is not needed: one fewer would leave no
      blank line before the table. */
  lemma PaddingMinimal(doc: string)
    requires |doc| > 0
    ensures Padding(doc) != "" ==> !HasSuffix(doc + Padding(doc)[1..], "\n\n")
  {
    if HasSuffix(doc, "\n\n") {
    } else if HasSuffix(doc, "\n") {
      assert "\n"[1..] == "" && doc + "" == doc;
    } else {
      PadTwo(doc);
      assert "\n\n"[1..] == "\n";
    }
  }

  /** An empty result comes only from an empty document and an empty
      table, so falling back to the root document's Markdown, as
      writePackageDocsInPlace does, never changes an empty content. */
  lemma AppendTocEmpty(doc: string, toc: string)
    ensures AppendToc(doc, toc) == "" <==> doc == "" && toc == ""
  {
  }

  /** A package documented in a tree: its directory relative to the base,
      its absolute directory, import path, summary and Markdown. */
  datatype TreeDoc = TreeDoc(relDir: string, pkgDir: string, pkgPath: string, summary: string, markdown: string)

  /** The package documented in the README at the base of the tree. */
  predicate IsRoot(d: TreeDoc)
  {
    d.relDir == "" || d.relDir == "."
  }

  /** linkTitle: the relative directory, or else the import path, or else ".". */
  function LinkTitle(d: TreeDoc): (title: string)
    ensures title != ""
    ensures !IsRoot(d) ==> title == d.relDir
    ensures IsRoot(d) ==> title == (if d.pkgPath != "" then d.pkgPath else ".")
  {
    if d.relDir != "" && d.relDir != "." then d.relDir
    else if d.pkgPath != "" then d.pkgPath
    else "."
  }
}
