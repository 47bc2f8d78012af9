/** The planning half of writePackageDocsToDir and writePackageDocsInPlace:
    which README files are written with which content, in which order. The
    directories are not created here, and filepath.Join, filepath.Rel and
    filepath.Clean are parameters. */
module Plan {
  import opened Text
  import opened Order
  import opened Results
  import opened Failures
  import opened Toc
  import opened Tree

  const Readme: string := "README.md"

  /** One os.WriteFile call: the file and its content. */
  datatype Write = Write(path: string, content: string)

  /** The state of the loop over the documents: the files written so far,
      the table entries collected, and the root document with the path of
      its README. */
  datatype Planned = Planned(writes: seq<Write>, entries: seq<TocEntry>, root: Option<TreeDoc>, rootPath: string)

  function ByRelDir(d: TreeDoc): string
  {
    d.relDir
  }

  function ByTitle(e: TocEntry): string
  {
    e.title
  }

  /** The documents that are not the root, in order. */
  function NonRoot(ds: seq<TreeDoc>): (r: seq<TreeDoc>)
    ensures forall d :: d in r <==> d in ds && !IsRoot(d)
  {
    if ds == [] then []
    else NonRoot(ds[..|ds| - 1]) + (if IsRoot(ds[|ds| - 1]) then [] else [ds[|ds| - 1]])
  }

  /** The last root document, if any. */
  function LastRoot(ds: seq<TreeDoc>): (r: Option<TreeDoc>)
    ensures r.Some? <==> exists d :: d in ds && IsRoot(d)
    ensures r.Some? ==> r.value in ds && IsRoot(r.value)
  {
    if ds == [] then None
    else if IsRoot(ds[|ds| - 1]) then Some(ds[|ds| - 1])
    else
      var r := LastRoot(ds[..|ds| - 1]);
      assert forall d :: d in ds[..|ds| - 1] ==> d in ds;
      r
  }

  // ---------------------------------------------------------------------
  // writePackageDocsToDir

  /** The README of a document under the output directory. */
  function DirTarget(outDir: string, d: TreeDoc, join: (string, string) -> string): string
  {
    join(if IsRoot(d) then outDir else join(outDir, d.relDir), Readme)
  }

  /** The table entry of a non-root document. */
  function DirEntry(d: TreeDoc, join: (string, string) -> string): TocEntry
  {
    TocEntry(LinkTitle(d), join(d.relDir, Readme), TrimSpace(d.summary))
  }

  /** One turn of the loop of writePackageDocsToDir. */
  function DirStep(outDir: string, join: (string, string) -> string, st: Planned, d: TreeDoc): Planned
  {
    if IsRoot(d) then st.(root := Some(d), rootPath := DirTarget(outDir, d, join))
    else st.(writes := st.writes + [Write(DirTarget(outDir, d, join), d.markdown)],
             entries := st.entries + [DirEntry(d, join)])
  }

  function DirFold(outDir: string, join: (string, string) -> string, ds: seq<TreeDoc>): Planned
  {
    if ds == [] then Planned([], [], None, "")
    else DirStep(outDir, join, DirFold(outDir, join, ds[..|ds| - 1]), ds[|ds| - 1])
  }

  /** The writes after the loop: the root README gets its document with the
      table appended; without a root document, a table alone is written. */
  function DirFinish(outDir: string, join: (string, string) -> string, st: Planned): seq<Write>
  {
    var toc := TOC(SortBy(st.entries, ByTitle));
    st.writes
    + (if st.root.Some? then [Write(st.rootPath, AppendToc(st.root.value.markdown, toc))]
       else if |toc| > 0 then [Write(join(outDir, Readme), toc)]
       else [])
  }

  /** What writePackageDocsToDir writes. */
  function DirPlan(outDir: string, docs: seq<TreeDoc>, join: (string, string) -> string): Result<seq<Write>, Failure>
  {
    if outDir == "" then Err(Usage(MissingOutputDirectory))
    else Ok(DirFinish(outDir, join, DirFold(outDir, join, SortBy(docs, ByRelDir))))
  }

  /** The README writes of the documents `nr`, in order. */
  function DirWrites(outDir: string, join: (string, string) -> string, nr: seq<TreeDoc>): (w: seq<Write>)
    ensures |w| == |nr|
  {
    seq(|nr|, i requires 0 <= i < |nr| => Write(DirTarget(outDir, nr[i], join), nr[i].markdown))
  }

  /** The table entries of the documents `nr`, in order. */
  function DirEntries(join: (string, string) -> string, nr: seq<TreeDoc>): (e: seq<TocEntry>)
    ensures |e| == |nr|
  {
    seq(|nr|, i requires 0 <= i < |nr| => DirEntry(nr[i], join))
  }

  lemma DirWritesSnoc(outDir: string, join: (string, string) -> string, nr: seq<TreeDoc>, d: TreeDoc)
    ensures DirWrites(outDir, join, nr + [d]) == DirWrites(outDir, join, nr) + [Write(DirTarget(outDir, d, join), d.markdown)]
    ensures DirEntries(join, nr + [d]) == DirEntries(join, nr) + [DirEntry(d, join)]
  {
    assert forall i :: 0 <= i < |nr| ==> (nr + [d])[i] == nr[i];
  }

  /** The loop of writePackageDocsToDir, described without it: one write and
      one table entry per non-root document in order, and the last root
      document kept for the base README. */
  lemma {:induction false} DirFoldShape(outDir: string, join: (string, string) -> string, ds: seq<TreeDoc>)
    ensures DirFold(outDir, join, ds).writes == DirWrites(outDir, join, NonRoot(ds))
    ensures DirFold(outDir, join, ds).entries == DirEntries(join, NonRoot(ds))
    ensures DirFold(outDir, join, ds).root == LastRoot(ds)
    ensures DirFold(outDir, join, ds).root.Some? ==>
      DirFold(outDir, join, ds).rootPath == DirTarget(outDir, DirFold(outDir, join, ds).root.value, join)
  {
    if ds == [] {
      assert DirWrites(outDir, join, []) == [] && DirEntries(join, []) == [];
    } else {
      var init, d := ds[..|ds| - 1], ds[|ds| - 1];
      DirFoldShape(outDir, join, init);
      if !IsRoot(d) {
        DirWritesSnoc(outDir, join, NonRoot(init), d);
      }
    }
  }

  /** The writes of the loop come first in the plan. */
  lemma DirFinishKeeps(outDir: string, join: (string, string) -> string, st: Planned, i: nat)
    requires i < |st.writes|
    ensures i < |DirFinish(outDir, join, st)| && DirFinish(outDir, join, st)[i] == st.writes[i]
  {
  }

  /** A non-root package of the tree gets its own README holding its Markdown. */
  lemma DirPlanWritesPackage(outDir: string, docs: seq<TreeDoc>, join: (string, string) -> string, d: TreeDoc)
    requires outDir != "" && d in docs && !IsRoot(d)
    ensures Write(DirTarget(outDir, d, join), d.markdown) in DirPlan(outDir, docs, join).value
  {
    var ds := SortBy(docs, ByRelDir);
    assert d in multiset(docs);
    assert d in ds;
    var nr := NonRoot(ds);
    var i :| 0 <= i < |nr| && nr[i] == d;
    var st := DirFold(outDir, join, ds);
    DirFoldShape(outDir, join, ds);
    assert st.writes[i] == Write(DirTarget(outDir, d, join), d.markdown);
    DirFinishKeeps(outDir, join, st, i);
  }

  /** Every non-root package of the tree gets its own README holding its
      Markdown. */
  lemma DirPlanWritesEachPackage(outDir: string, docs: seq<TreeDoc>, join: (string, string) -> string)
    requires outDir != ""
    ensures forall d :: d in docs && !IsRoot(d) ==>
      Write(DirTarget(outDir, d, join), d.markdown) in DirPlan(outDir, docs, join).value
  {
    forall d | d in docs && !IsRoot(d)
      ensures Write(DirTarget(outDir, d, join), d.markdown) in DirPlan(outDir, docs, join).value
    {
      DirPlanWritesPackage(outDir, docs, join, d);
    }
  }

  /** With a root document, the plan ends with its README, which starts
      with the document. */
  lemma DirFinishRootLast(outDir: string, join: (string, string) -> string, st: Planned)
    requires st.root.Some?
    ensures var w := DirFinish(outDir, join, st);
      w != [] && w[|w| - 1].path == st.rootPath && HasPrefix(w[|w| - 1].content, st.root.value.markdown)
  {
    AppendTocExtends(st.root.value.markdown, TOC(SortBy(st.entries, ByTitle)));
  }

  /** When the tree has a root package, the last file written is the base
      README, and it starts with that package's Markdown. */
  lemma DirPlanRootLast(outDir: string, docs: seq<TreeDoc>, join: (string, string) -> string)
    requires outDir != ""
    ensures var w := DirPlan(outDir, docs, join).value;
      (exists d :: d in docs && IsRoot(d)) ==>
        w != [] && w[|w| - 1].path == join(outDir, Readme)
        && exists r :: r in docs && IsRoot(r) && HasPrefix(w[|w| - 1].content, r.markdown)
  {
    var ds := SortBy(docs, ByRelDir);
    var st := DirFold(outDir, join, ds);
    DirFoldShape(outDir, join, ds);
    if exists d :: d in docs && IsRoot(d) {
      var d :| d in docs && IsRoot(d);
      assert d in multiset(docs);
      assert d in ds;
      var r := st.root.value;
      assert r in multiset(ds);
      assert r in docs;
      DirFinishRootLast(outDir, join, st);
    }
  }

  /** With no documents nothing is written. */
  lemma DirPlanEmpty(outDir: string, join: (string, string) -> string)
    requires outDir != ""
    ensures DirPlan(outDir, [], join) == Ok([])
  {
    var none: seq<TreeDoc> := [];
    assert SortBy(none, ByRelDir) == none;
    var st := DirFold(outDir, join, none);
    assert st == Planned([], [], None, "");
    assert SortBy(st.entries, ByTitle) == [];
    assert TOC([]) == "";
    assert DirFinish(outDir, join, st) == [];
  }

  /** The whole plan in closed form: the README of each non-root document,
      in order of relative directory, then the root README holding the
      root's Markdown followed by the table of every other document sorted
      by title; without a root, the table alone when there is one. */
  lemma DirPlanClosedForm(outDir: string, docs: seq<TreeDoc>, join: (string, string) -> string)
    requires outDir != ""
    ensures var ds := SortBy(docs, ByRelDir);
      var toc := TOC(SortBy(DirEntries(join, NonRoot(ds)), ByTitle));
      var root := LastRoot(ds);
      DirPlan(outDir, docs, join)
      == Ok(DirWrites(outDir, join, NonRoot(ds))
            + (if root.Some? then [Write(join(outDir, Readme), AppendToc(root.value.markdown, toc))]
               else if |toc| > 0 then [Write(join(outDir, Readme), toc)]
               else []))
  {
    DirFoldShape(outDir, join, SortBy(docs, ByRelDir));
  }

  /** appendTOCAfterDoc keeps the document in front. */
  lemma AppendTocExtends(doc: string, toc: string)
    ensures HasPrefix(AppendToc(doc, toc), doc)
  {
    var c := AppendToc(doc, toc);
    if |toc| > 0 && |doc| > 0 {
      assert c[..|doc|] == doc;
    }
  }

  /** writePackageDocsToDir, less the directory creation. The documents are
      sorted by relative directory first, the table entries by title. */
  method WritePackageDocsToDir(outDir: string, docs: seq<TreeDoc>, join: (string, string) -> string)
    returns (r: Result<seq<Write>, Failure>)
    ensures r == DirPlan(outDir, docs, join)
  {
    if outDir == "" {
      return Err(Usage(MissingOutputDirectory));
    }
    var sorted := SortBy(docs, ByRelDir);
    var writes: seq<Write> := [];
    var entries: seq<TocEntry> := [];
    var rootDoc: Option<TreeDoc> := None;
    var rootPath := "";
    var i := 0;
    while i < |sorted|
      invariant 0 <= i <= |sorted|
      invariant Planned(writes, entries, rootDoc, rootPath) == DirFold(outDir, join, sorted[..i])
    {
      var doc := sorted[i];
      ghost var before := Planned(writes, entries, rootDoc, rootPath);
      assert DirFold(outDir, join, sorted[..i + 1]) == DirStep(outDir, join, before, doc) by {
        assert sorted[..i + 1][..i] == sorted[..i];
      }
      var targetDir := outDir;
      if doc.relDir != "" && doc.relDir != "." {
        targetDir := join(outDir, doc.relDir);
      }
      var filePath := join(targetDir, Readme);
      if doc.relDir == "" || doc.relDir == "." {
        rootDoc := Some(doc);
        rootPath := filePath;
        i := i + 1;
        continue;
      }
      writes := writes + [Write(filePath, doc.markdown)];
      entries := entries + [TocEntry(LinkTitle(doc), join(doc.relDir, Readme), TrimSpace(doc.summary))];
      i := i + 1;
    }
    assert sorted[..|sorted|] == sorted;
    ghost var st := Planned(writes, entries, rootDoc, rootPath);
    var toc := BuildTOC(SortBy(entries, ByTitle));
    if rootDoc.Some? {
      var content := AppendTOCAfterDoc(rootDoc.value.markdown, toc);
      writes := writes + [Write(rootPath, content)];
    } else if |toc| > 0 {
      writes := writes + [Write(join(outDir, Readme), toc)];
    }
    assert writes == DirFinish(outDir, join, st);
    return Ok(writes);
  }

  // ---------------------------------------------------------------------
  // writePackageDocsInPlace

  /** The README of a document, in its own directory. */
  function InPlaceTarget(d: TreeDoc, join: (string, string) -> string): string
  {
    join(d.pkgDir, Readme)
  }

  /** The table entry of a non-root document: the link is the README's path
      relative to the base, or the path itself where filepath.Rel fails. */
  function InPlaceEntry(base: string, d: TreeDoc, join: (string, string) -> string,
                        rel: (string, string) -> Option<string>): TocEntry
  {
    var target := InPlaceTarget(d, join);
    var link := if rel(base, target).Some? then rel(base, target).value else target;
    TocEntry(LinkTitle(d), link, TrimSpace(d.summary))
  }

  /** One turn of the loop of writePackageDocsInPlace: documents without a
      directory are skipped, the one in the base directory is the root. */
  function InPlaceStep(base: string, join: (string, string) -> string, rel: (string, string) -> Option<string>,
                       clean: string -> string, st: Planned, d: TreeDoc): Planned
  {
    if d.pkgDir == "" then st
    else if SameDir(d.pkgDir, base, clean) then st.(root := Some(d), rootPath := InPlaceTarget(d, join))
    else st.(writes := st.writes + [Write(InPlaceTarget(d, join), d.markdown)],
             entries := st.entries + [InPlaceEntry(base, d, join, rel)])
  }

  function InPlaceFold(base: string, join: (string, string) -> string, rel: (string, string) -> Option<string>,
                       clean: string -> string, ds: seq<TreeDoc>): Planned
  {
    if ds == [] then Planned([], [], None, join(base, Readme))
    else InPlaceStep(base, join, rel, clean, InPlaceFold(base, join, rel, clean, ds[..|ds| - 1]), ds[|ds| - 1])
  }

  /** The base README: the root document with the table appended, or the
      table alone; nothing when that is empty. */
  function InPlaceFinish(st: Planned): seq<Write>
  {
    var toc := TOC(SortBy(st.entries, ByTitle));
    var content := if st.root.Some? then AppendToc(st.root.value.markdown, toc) else toc;
    st.writes + (if |content| == 0 then [] else [Write(st.rootPath, content)])
  }

  /** What writePackageDocsInPlace writes. */
  function InPlacePlan(baseDir: string, docs: seq<TreeDoc>, join: (string, string) -> string,
                       rel: (string, string) -> Option<string>, clean: string -> string): Result<seq<Write>, Failure>
  {
    if baseDir == "" then Err(Usage(MissingBaseDirectory))
    else Ok(InPlaceFinish(InPlaceFold(clean(baseDir), join, rel, clean, docs)))
  }

  /** The documents the in-place loop writes on their own: those with a
      directory that is not the base. */
  predicate InPlaceOwn(base: string, clean: string -> string, d: TreeDoc)
  {
    d.pkgDir != "" && !SameDir(d.pkgDir, base, clean)
  }

  /** The documents in the base directory. */
  predicate InBase(base: string, clean: string -> string, d: TreeDoc)
  {
    d.pkgDir != "" && SameDir(d.pkgDir, base, clean)
  }

  /** The documents written on their own, in order. */
  function Own(base: string, clean: string -> string, ds: seq<TreeDoc>): (r: seq<TreeDoc>)
    ensures forall d :: d in r <==> d in ds && InPlaceOwn(base, clean, d)
  {
    if ds == [] then []
    else Own(base, clean, ds[..|ds| - 1])
         + (if InPlaceOwn(base, clean, ds[|ds| - 1]) then [ds[|ds| - 1]] else [])
  }

  /** The last document in the base directory, if any. */
  function LastInBase(base: string, clean: string -> string, ds: seq<TreeDoc>): (r: Option<TreeDoc>)
    ensures r.Some? <==> exists d :: d in ds && InBase(base, clean, d)
    ensures r.Some? ==> r.value in ds && InBase(base, clean, r.value)
  {
    if ds == [] then None
    else if InBase(base, clean, ds[|ds| - 1]) then Some(ds[|ds| - 1])
    else
      var r := LastInBase(base, clean, ds[..|ds| - 1]);
      assert forall d :: d in ds[..|ds| - 1] ==> d in ds;
      r
  }

  function InPlaceWrites(join: (string, string) -> string, own: seq<TreeDoc>): (w: seq<Write>)
    ensures |w| == |own|
  {
    seq(|own|, i requires 0 <= i < |own| => Write(InPlaceTarget(own[i], join), own[i].markdown))
  }

  function InPlaceEntries(base: string, join: (string, string) -> string, rel: (string, string) -> Option<string>,
                          own: seq<TreeDoc>): (e: seq<TocEntry>)
    ensures |e| == |own|
  {
    seq(|own|, i requires 0 <= i < |own| => InPlaceEntry(base, own[i], join, rel))
  }

  lemma InPlaceWritesSnoc(base: string, join: (string, string) -> string, rel: (string, string) -> Option<string>,
                          own: seq<TreeDoc>, d: TreeDoc)
    ensures InPlaceWrites(join, own + [d]) == InPlaceWrites(join, own) + [Write(InPlaceTarget(d, join), d.markdown)]
    ensures InPlaceEntries(base, join, rel, own + [d]) == InPlaceEntries(base, join, rel, own) + [InPlaceEntry(base, d, join, rel)]
  {
    assert forall i :: 0 <= i < |own| ==> (own + [d])[i] == own[i];
  }

  /** The loop of writePackageDocsInPlace, described without it: one write
      and one table entry per document outside the base, in input order;
      the last document in the base directory is the root. */
  lemma {:induction false} InPlaceFoldShape(base: string, join: (string, string) -> string,
                                            rel: (string, string) -> Option<string>, clean: string -> string,
                                            ds: seq<TreeDoc>)
    ensures InPlaceFold(base, join, rel, clean, ds).writes == InPlaceWrites(join, Own(base, clean, ds))
    ensures InPlaceFold(base, join, rel, clean, ds).entries == InPlaceEntries(base, join, rel, Own(base, clean, ds))
    ensures InPlaceFold(base, join, rel, clean, ds).root == LastInBase(base, clean, ds)
    ensures InPlaceFold(base, join, rel, clean, ds).rootPath ==
      if LastInBase(base, clean, ds).Some? then InPlaceTarget(LastInBase(base, clean, ds).value, join) else join(base, Readme)
  {
    if ds == [] {
      assert InPlaceWrites(join, []) == [] && InPlaceEntries(base, join, rel, []) == [];
    } else {
      var init, d := ds[..|ds| - 1], ds[|ds| - 1];
      InPlaceFoldShape(base, join, rel, clean, init);
      if InPlaceOwn(base, clean, d) {
        InPlaceWritesSnoc(base, join, rel, Own(base, clean, init), d);
      }
    }
  }

  /** In place, every package outside the base directory gets its Markdown
      written to the README in its own directory. */
  lemma InPlacePlanWritesEachPackage(baseDir: string, docs: seq<TreeDoc>, join: (string, string) -> string,
                                     rel: (string, string) -> Option<string>, clean: string -> string)
    requires baseDir != ""
    ensures forall d :: d in docs && InPlaceOwn(clean(baseDir), clean, d) ==>
      Write(InPlaceTarget(d, join), d.markdown) in InPlacePlan(baseDir, docs, join, rel, clean).value
  {
    var base := clean(baseDir);
    var st := InPlaceFold(base, join, rel, clean, docs);
    InPlaceFoldShape(base, join, rel, clean, docs);
    var w := InPlacePlan(baseDir, docs, join, rel, clean).value;
    assert w[..|st.writes|] == st.writes;
    forall d | d in docs && InPlaceOwn(base, clean, d)
      ensures Write(InPlaceTarget(d, join), d.markdown) in w
    {
      var own := Own(base, clean, docs);
      var i :| 0 <= i < |own| && own[i] == d;
      assert w[i] == st.writes[i];
    }
  }

  /** In place, the base README is written last, in the directory of the
      last package found in the base (else the base itself), and starts with
      that package's Markdown; it is left alone only when there is nothing
      to put in it. */
  lemma InPlacePlanRootLast(baseDir: string, docs: seq<TreeDoc>, join: (string, string) -> string,
                            rel: (string, string) -> Option<string>, clean: string -> string)
    requires baseDir != ""
    ensures var base := clean(baseDir);
      var w := InPlacePlan(baseDir, docs, join, rel, clean).value;
      var root := LastInBase(base, clean, docs);
      var own := Own(base, clean, docs);
      && (|w| == |own| <==> (root.None? || root.value.markdown == "") && own == [])
      && (|w| > |own| ==> w[|w| - 1].path == (if root.Some? then InPlaceTarget(root.value, join) else join(base, Readme)))
      && (|w| > |own| && root.Some? ==> HasPrefix(w[|w| - 1].content, root.value.markdown))
  {
    var base := clean(baseDir);
    var st := InPlaceFold(base, join, rel, clean, docs);
    InPlaceFoldShape(base, join, rel, clean, docs);
    var toc := TOC(SortBy(st.entries, ByTitle));
    assert |toc| == 0 <==> st.entries == [] by {
      assert |SortBy(st.entries, ByTitle)| == |st.entries| by {
        assert multiset(SortBy(st.entries, ByTitle)) == multiset(st.entries);
      }
      if st.entries != [] {
        assert |TOC(SortBy(st.entries, ByTitle))| >= |TocHeading|;
      }
    }
    if st.root.Some? {
      AppendTocExtends(st.root.value.markdown, toc);
      AppendTocEmpty(st.root.value.markdown, toc);
    }
  }

  /** The in-place plan in closed form: the README of each document outside
      the base, in input order, then the base README holding the last base
      document's Markdown followed by the table of the others sorted by
      title (or the table alone), unless that is empty. */
  lemma InPlacePlanClosedForm(baseDir: string, docs: seq<TreeDoc>, join: (string, string) -> string,
                              rel: (string, string) -> Option<string>, clean: string -> string)
    requires baseDir != ""
    ensures var base := clean(baseDir);
      var own := Own(base, clean, docs);
      var root := LastInBase(base, clean, docs);
      var toc := TOC(SortBy(InPlaceEntries(base, join, rel, own), ByTitle));
      var content := if root.Some? then AppendToc(root.value.markdown, toc) else toc;
      var path := if root.Some? then InPlaceTarget(root.value, join) else join(base, Readme);
      InPlacePlan(baseDir, docs, join, rel, clean)
      == Ok(InPlaceWrites(join, own) + (if |content| == 0 then [] else [Write(path, content)]))
  {
    InPlaceFoldShape(clean(baseDir), join, rel, clean, docs);
  }

  /** writePackageDocsInPlace, less the directory creation. */
  method WritePackageDocsInPlace(baseDir: string, docs: seq<TreeDoc>, join: (string, string) -> string,
                                 rel: (string, string) -> Option<string>, clean: string -> string)
    returns (r: Result<seq<Write>, Failure>)
    ensures r == InPlacePlan(baseDir, docs, join, rel, clean)
  {
    if baseDir == "" {
      return Err(Usage(MissingBaseDirectory));
    }
    var base := clean(baseDir);
    var writes: seq<Write> := [];
    var entries: seq<TocEntry> := [];
    var rootDoc: Option<TreeDoc> := None;
    var rootPath := join(base, Readme);
    var i := 0;
    while i < |docs|
      invariant 0 <= i <= |docs|
      invariant Planned(writes, entries, rootDoc, rootPath) == InPlaceFold(base, join, rel, clean, docs[..i])
    {
      var doc := docs[i];
      ghost var before := Planned(writes, entries, rootDoc, rootPath);
      assert InPlaceFold(base, join, rel, clean, docs[..i + 1]) == InPlaceStep(base, join, rel, clean, before, doc) by {
        assert docs[..i + 1][..i] == docs[..i];
      }
      var pkgDir := doc.pkgDir;
      if pkgDir == "" {
        i := i + 1;
        continue;
      }
      var target := join(pkgDir, Readme);
      if SameDir(pkgDir, base, clean) {
        rootDoc := Some(doc);
        rootPath := target;
        i := i + 1;
        continue;
      }
      writes := writes + [Write(target, doc.markdown)];
      var relLink := rel(base, target);
      var link := if relLink.Some? then relLink.value else target;
      entries := entries + [TocEntry(LinkTitle(doc), link, TrimSpace(doc.summary))];
      i := i + 1;
    }
    assert docs[..|docs|] == docs;
    ghost var st := Planned(writes, entries, rootDoc, rootPath);
    var toc := BuildTOC(SortBy(entries, ByTitle));
    var content := "";
    if rootDoc.Some? {
      content := AppendTOCAfterDoc(rootDoc.value.markdown, toc);
    } else if |toc| > 0 {
      content := toc;
    }
    if |content| == 0 && rootDoc.Some? {
      // Never changes anything: an empty result means an empty document.
      AppendTocEmpty(rootDoc.value.markdown, toc);
      content := rootDoc.value.markdown;
    }
    if |content| == 0 {
      assert writes == InPlaceFinish(st);
      return Ok(writes);
    }
    writes := writes + [Write(rootPath, content)];
    assert writes == InPlaceFinish(st);
    return Ok(writes);
  }
}
