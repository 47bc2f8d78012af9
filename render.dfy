/** The Markdown renderer: how a package, a symbol of it, or a method or
    field of one of its types is written out. Each render method appends to
    a Writer exactly the text its companion function (`ValueDocText` for
    RenderValueDoc, and so on) gives. */
module Render {
  import opened Text
  import opened Order
  import opened Results
  import opened Options
  import opened DocModel
  import opened Markdown
  import opened Failures

  /** An io.Writer: everything written to it so far, in order. */
  class Writer {
    var buf: string

    constructor ()
      ensures buf == ""
    {
      buf := "";
    }

    /** One fmt.Fprint* call on the writer. */
    method Write(s: string)
      modifies this
      ensures buf == old(buf) + s
    {
      buf := buf + s;
    }
  }

  const FenceOpen: string := "```go\n"
  const FenceClose: string := "\n```\n\n"

  /** markdownRenderer: the options and the package being rendered. */
  datatype Renderer = Renderer(options: Options, pkg: Package)
  {
    /** matchName */
    predicate Matches(name: string, target: string)
    {
      MatchName(options.caseSensitive, name, target)
    }

    /** valueHasName */
    predicate HasName(v: Value, name: string)
    {
      NamedIn(options.caseSensitive, v.names, name)
    }

    /** packageSummary: the first sentence of the package comment. */
    function PackageSummary(): string
    {
      SummaryText(pkg.doc)
    }

    /** The heading of a function: its name, qualified by the receiver's type. */
    function FuncTitle(f: Func, receiver: string): string
    {
      if receiver != "" then receiver + "." + f.name else f.name
    }

    /** The summary table lists the variables of a command only on request. */
    predicate ListsVars()
    {
      pkg.name != "main" || options.includeMainVars || options.all
    }

    /** The summary table lists the functions of a command only on request. */
    predicate ListsFuncs()
    {
      pkg.name != "main" || options.includeMainFuncs || options.all
    }

    /** The summary-table line of a group of values. */
    function ValueEntry(v: Value): string
    {
      BulletLine(ValueTitle(v.names), SummaryText(v.doc))
    }

    /** The summary-table line of a function. */
    function FuncEntry(f: Func): string
    {
      BulletLine(f.signature, SummaryText(f.doc))
    }

    /** The summary-table line of a type. */
    function TypeEntry(t: TypeDoc): string
    {
      BulletLine("type " + t.name, SummaryText(t.doc))
    }

    function ValueBullets(vs: seq<Value>): (r: seq<string>)
      ensures |r| == |vs|
      decreases |vs|
    {
      if vs == [] then [] else ValueBullets(vs[..|vs| - 1]) + [ValueEntry(vs[|vs| - 1])]
    }

    function FuncBullets(fs: seq<Func>): (r: seq<string>)
      ensures |r| == |fs|
      decreases |fs|
    {
      if fs == [] then [] else FuncBullets(fs[..|fs| - 1]) + [FuncEntry(fs[|fs| - 1])]
    }

    function TypeBullets(ts: seq<TypeDoc>): (r: seq<string>)
      ensures |r| == |ts|
      decreases |ts|
    {
      if ts == [] then [] else TypeBullets(ts[..|ts| - 1]) + [TypeEntry(ts[|ts| - 1])]
    }

    /** The lines of the summary table, before sorting, in the order
        renderPackageSummary collects them. */
    function SummaryEntries(): seq<string>
    {
      ValueBullets(pkg.consts)
      + (if ListsVars() then ValueBullets(pkg.vars) else [])
      + (if ListsFuncs() then FuncBullets(pkg.funcs) else [])
      + TypeBullets(pkg.types)
    }

    /** The heading of a package page: none for a command, otherwise the
        package name and, when known, its import line. */
    function Header(): string
    {
      if pkg.name == "main" then ""
      else if pkg.importPath == "" then "# package " + pkg.name + "\n\n"
      else "# package " + pkg.name + "\n\n" + "`import \"" + pkg.importPath + "\"`\n\n"
    }

    /** A command shown as a command: neither -cmd nor -all is given. */
    predicate CommandView()
    {
      pkg.name == "main" && !options.showCmd && !options.all
    }

    /** writeCodeBlock: nothing for an empty block, otherwise a fenced Go block. */
    function CodeBlockText(code: string): string
    {
      if code == "" then "" else FenceOpen + TrimSpace(code) + FenceClose
    }

    /** A doc comment as a paragraph, or nothing when it is empty. */
    function DocBlockText(text: string): string
    {
      var d := DocMarkdown(text);
      if d != "" then d + "\n" + "\n" else ""
    }

    /** One line of the -short listing. */
    function BulletText(signature: string, doc: string): string
    {
      BulletLine(signature, SummaryText(doc)) + "\n"
    }

    /** The summary table: its entries sorted, one per line, then a blank line. */
    function SummaryTableText(): string
    {
      var entries := SummaryEntries();
      if entries == [] then "" else Terminated(SortStrings(entries)) + "\n"
    }

    /** renderValueDoc */
    function ValueDocText(v: Value): string
    {
      if options.short then BulletText(ValueTitle(v.names), v.doc)
      else "#### " + ValueTitle(v.names) + "\n\n" + CodeBlockText(v.decl) + DocBlockText(v.doc)
    }

    /** renderFuncDoc: the source when -src is given, otherwise the signature. */
    function FuncDocText(f: Func, receiver: string): string
    {
      if options.short then BulletText(f.signature, f.doc)
      else
        "#### " + FuncTitle(f, receiver) + "\n\n"
        + (if options.showSource then CodeBlockText(f.decl) else FenceOpen + f.signature + FenceClose)
        + DocBlockText(f.doc)
    }

    /** One name of a field, as renderFieldDoc writes it. */
    function FieldDocText(typeName: string, field: Field, name: string): string
    {
      if options.short then BulletText(typeName + "." + name, field.doc)
      else "#### " + typeName + "." + name + "\n\n" + CodeBlockText(field.code) + DocBlockText(field.doc)
    }

    /** renderValuesSection: nothing for no values. */
    function ValuesSectionText(title: string, vs: seq<Value>): string
    {
      if vs == [] then "" else "### " + title + "\n\n" + ValueDocsText(vs) + "\n"
    }

    /** renderFuncsSection: nothing for no functions. */
    function FuncsSectionText(title: string, fs: seq<Func>, receiver: string): string
    {
      if fs == [] then "" else "### " + title + "\n\n" + FuncDocsText(fs, receiver) + "\n"
    }

    /** renderTypeDoc */
    function TypePageText(t: TypeDoc): string
    {
      "## type " + t.name + "\n\n" + CodeBlockText(t.decl) + DocBlockText(t.doc)
      + ValuesSectionText("Constants", t.consts) + ValuesSectionText("Variables", t.vars)
      + FuncsSectionText("Functions returning " + t.name, t.funcs, "")
      + FuncsSectionText("Methods", t.methods, t.name)
    }

    /** renderFieldDoc: nothing unless the type is a struct. */
    function FieldsOfText(t: TypeDoc, fieldName: string): string
    {
      if t.fields.None? then "" else FieldsNamedText(t.name, t.fields.value, fieldName)
    }

    /** renderSymbol: types, functions, constants, variables, then the
        members grouped under types, each that has the name. */
    function SymbolPageText(symbol: string): string
    {
      TypesNamedText(pkg.types, symbol) + FuncsNamedText(pkg.funcs, symbol, "")
      + ValuesNamedText(pkg.consts, symbol) + ValuesNamedText(pkg.vars, symbol)
      + MembersNamedText(pkg.types, symbol)
    }

    /** renderPackage */
    function PackagePageText(): string
    {
      Header() + DocBlockText(pkg.doc) + SummaryTableText()
      + (if CommandView() then CommandSectionsText() else if options.all then AllSectionsText() else "")
    }

    /** What follows the summary table of a command shown as a command: its
        variables and functions, each only on request. */
    function CommandSectionsText(): string
    {
      (if options.includeMainVars || options.all then ValuesSectionText("Variables", pkg.vars) else "")
      + (if options.includeMainFuncs || options.all then FuncsSectionText("Functions", pkg.funcs, "") else "")
    }

    /** What follows the summary table with -all: every section. */
    function AllSectionsText(): string
    {
      ValuesSectionText("Constants", pkg.consts) + ValuesSectionText("Variables", pkg.vars)
      + FuncsSectionText("Functions", pkg.funcs, "") + TypePagesText(pkg.types)
    }

    /** The loop of renderValuesSection: each group in turn. */
    function ValueDocsText(vs: seq<Value>): string
      decreases |vs|
    {
      if vs == [] then "" else ValueDocsText(vs[..|vs| - 1]) + ValueDocText(vs[|vs| - 1])
    }

    /** The loop of renderFuncsSection: each function in turn. */
    function FuncDocsText(fs: seq<Func>, receiver: string): string
      decreases |fs|
    {
      if fs == [] then "" else FuncDocsText(fs[..|fs| - 1], receiver) + FuncDocText(fs[|fs| - 1], receiver)
    }

    /** A loop of renderSymbol over values: the groups that declare the name. */
    function ValuesNamedText(vs: seq<Value>, symbol: string): string
      decreases |vs|
    {
      if vs == [] then ""
      else
        ValuesNamedText(vs[..|vs| - 1], symbol)
        + (if HasName(vs[|vs| - 1], symbol) then ValueDocText(vs[|vs| - 1]) else "")
    }

    /** A loop of renderSymbol or renderMethod over functions: those of the name. */
    function FuncsNamedText(fs: seq<Func>, symbol: string, receiver: string): string
      decreases |fs|
    {
      if fs == [] then ""
      else
        FuncsNamedText(fs[..|fs| - 1], symbol, receiver)
        + (if Matches(fs[|fs| - 1].name, symbol) then FuncDocText(fs[|fs| - 1], receiver) else "")
    }

    /** The inner loop of renderFieldDoc: the names of one field that match. */
    function FieldNamesNamedText(typeName: string, field: Field, names: seq<string>, fieldName: string): string
      decreases |names|
    {
      if names == [] then ""
      else
        FieldNamesNamedText(typeName, field, names[..|names| - 1], fieldName)
        + (if Matches(names[|names| - 1], fieldName) then FieldDocText(typeName, field, names[|names| - 1]) else "")
    }

    /** The outer loop of renderFieldDoc: each field of the struct. */
    function FieldsNamedText(typeName: string, fields: seq<Field>, fieldName: string): string
      decreases |fields|
    {
      if fields == [] then ""
      else
        FieldsNamedText(typeName, fields[..|fields| - 1], fieldName)
        + FieldNamesNamedText(typeName, fields[|fields| - 1], fields[|fields| - 1].names, fieldName)
    }

    /** The loop of renderTypesSection: each type in turn. */
    function TypePagesText(ts: seq<TypeDoc>): string
      decreases |ts|
    {
      if ts == [] then "" else TypePagesText(ts[..|ts| - 1]) + TypePageText(ts[|ts| - 1])
    }

    /** The loop of renderSymbol over the types: those of the name. */
    function TypesNamedText(ts: seq<TypeDoc>, symbol: string): string
      decreases |ts|
    {
      if ts == [] then ""
      else
        TypesNamedText(ts[..|ts| - 1], symbol)
        + (if Matches(ts[|ts| - 1].name, symbol) then TypePageText(ts[|ts| - 1]) else "")
    }

    /** The last loop of renderSymbol: the constants, variables and
        constructors grouped under each type that have the name. */
    function MembersNamedText(ts: seq<TypeDoc>, symbol: string): string
      decreases |ts|
    {
      if ts == [] then ""
      else
        MembersNamedText(ts[..|ts| - 1], symbol) + TypeMembersText(ts[|ts| - 1], symbol)
    }

    /** One iteration of that loop: the type's constants, variables and
        constructors of the name. */
    function TypeMembersText(t: TypeDoc, symbol: string): string
    {
      ValuesNamedText(t.consts, symbol) + ValuesNamedText(t.vars, symbol)
      + FuncsNamedText(t.funcs, symbol, t.name)
    }

    /** The loop of renderMethod: for each type of the name, its methods and
        then its fields of the method name. */
    function MethodsNamedText(ts: seq<TypeDoc>, typeName: string, methodName: string): string
      decreases |ts|
    {
      if ts == [] then ""
      else
        MethodsNamedText(ts[..|ts| - 1], typeName, methodName) + TypeMethodsText(ts[|ts| - 1], typeName, methodName)
    }

    /** One iteration of that loop: nothing for a type of another name. */
    function TypeMethodsText(t: TypeDoc, typeName: string, methodName: string): string
    {
      if Matches(t.name, typeName) then FuncsNamedText(t.methods, methodName, t.name) + FieldsOfText(t, methodName)
      else ""
    }

    /** Some type has the name. */
    predicate AnyTypeNamed(ts: seq<TypeDoc>, symbol: string)
    {
      exists i :: 0 <= i < |ts| && Matches(ts[i].name, symbol)
    }

    /** Some function has the name. */
    predicate AnyFuncNamed(fs: seq<Func>, symbol: string)
    {
      exists i :: 0 <= i < |fs| && Matches(fs[i].name, symbol)
    }

    /** Some group of values declares the name. */
    predicate AnyValueNamed(vs: seq<Value>, symbol: string)
    {
      exists i :: 0 <= i < |vs| && HasName(vs[i], symbol)
    }

    /** Some type has a constant, variable or constructor of the name. */
    predicate AnyMemberNamed(ts: seq<TypeDoc>, symbol: string)
    {
      exists i :: 0 <= i < |ts| && HasMemberNamed(ts[i], symbol)
    }

    /** The type has a constant, variable or constructor of the name. */
    predicate HasMemberNamed(t: TypeDoc, symbol: string)
    {
      AnyValueNamed(t.consts, symbol) || AnyValueNamed(t.vars, symbol) || AnyFuncNamed(t.funcs, symbol)
    }

    /** renderSymbol finds something to render. */
    predicate SymbolFound(symbol: string)
    {
      AnyTypeNamed(pkg.types, symbol) || AnyFuncNamed(pkg.funcs, symbol)
      || AnyValueNamed(pkg.consts, symbol) || AnyValueNamed(pkg.vars, symbol)
      || AnyMemberNamed(pkg.types, symbol)
    }

    /** Some of the names matches. */
    predicate AnyNameMatches(names: seq<string>, target: string)
    {
      exists j :: 0 <= j < |names| && Matches(names[j], target)
    }

    /** Some field has the name. */
    predicate AnyFieldNamed(fields: seq<Field>, fieldName: string)
    {
      exists i :: 0 <= i < |fields| && AnyNameMatches(fields[i].names, fieldName)
    }

    /** The type is a struct with a field of the name. */
    predicate HasField(t: TypeDoc, fieldName: string)
    {
      t.fields.Some? && AnyFieldNamed(t.fields.value, fieldName)
    }

    /** renderMethod finds something to render: a type of the name with a
        method or a field of the other name. */
    predicate MethodFound(ts: seq<TypeDoc>, typeName: string, methodName: string)
    {
      exists i :: 0 <= i < |ts| && TypeHasMethod(ts[i], typeName, methodName)
    }

    /** The type has the name and a method or a field of the other name. */
    predicate TypeHasMethod(t: TypeDoc, typeName: string, methodName: string)
    {
      Matches(t.name, typeName) && (AnyFuncNamed(t.methods, methodName) || HasField(t, methodName))
    }

    /** The `if doc := r.docMarkdown(...); doc != ""` step of each render. */
    method WriteDoc(w: Writer, text: string)
      modifies w
      ensures w.buf == old(w.buf) + DocBlockText(text)
    {
      ghost var start := w.buf;
      var d := DocMarkdown(text);
      if d != "" {
        w.Write(d + "\n");
        w.Write("\n");
        Assoc(start, d + "\n", "\n");
      } else {
        assert start + "" == start;
      }
    }

    /** writeCodeBlock */
    method WriteCodeBlock(w: Writer, code: string)
      modifies w
      ensures w.buf == old(w.buf) + CodeBlockText(code)
    {
      if code != "" {
        w.Write(FenceOpen + TrimSpace(code) + FenceClose);
      }
    }

    /** renderValueDoc */
    method RenderValueDoc(w: Writer, v: Value)
      modifies w
      ensures w.buf == old(w.buf) + ValueDocText(v)
    {
      var title := ValueTitle(v.names);
      if options.short {
        w.Write(BulletLine(title, SummaryText(v.doc)) + "\n");
        assert ValueDocText(v) == BulletText(title, v.doc);
        return;
      }
      ghost var start := w.buf;
      var head := "#### " + title + "\n\n";
      w.Write(head);
      WriteCodeBlock(w, v.decl);
      Assoc(start, head, CodeBlockText(v.decl));
      WriteDoc(w, v.doc);
      Assoc(start, head + CodeBlockText(v.decl), DocBlockText(v.doc));
      assert ValueDocText(v) == head + CodeBlockText(v.decl) + DocBlockText(v.doc);
    }

    /** renderFuncDoc */
    method RenderFuncDoc(w: Writer, f: Func, receiver: string)
      modifies w
      ensures w.buf == old(w.buf) + FuncDocText(f, receiver)
    {
      if options.short {
        w.Write(BulletLine(f.signature, SummaryText(f.doc)) + "\n");
        assert FuncDocText(f, receiver) == BulletText(f.signature, f.doc);
        return;
      }
      ghost var start := w.buf;
      var name := f.name;
      if receiver != "" {
        name := receiver + "." + f.name;
      }
      var head := "#### " + name + "\n\n";
      w.Write(head);
      ghost var code := if options.showSource then CodeBlockText(f.decl) else FenceOpen + f.signature + FenceClose;
      if options.showSource {
        WriteCodeBlock(w, f.decl);
      } else {
        w.Write(FenceOpen + f.signature + FenceClose);
      }
      Assoc(start, head, code);
      WriteDoc(w, f.doc);
      Assoc(start, head + code, DocBlockText(f.doc));
      assert name == FuncTitle(f, receiver);
      assert FuncDocText(f, receiver) == head + code + DocBlockText(f.doc);
    }

    lemma ValueDocsStep(vs: seq<Value>, i: nat)
      requires i < |vs|
      ensures ValueDocsText(vs[..i + 1]) == ValueDocsText(vs[..i]) + ValueDocText(vs[i])
    {
      assert vs[..i + 1][..i] == vs[..i];
    }

    lemma FuncDocsStep(fs: seq<Func>, receiver: string, i: nat)
      requires i < |fs|
      ensures FuncDocsText(fs[..i + 1], receiver) == FuncDocsText(fs[..i], receiver) + FuncDocText(fs[i], receiver)
    {
      assert fs[..i + 1][..i] == fs[..i];
    }

    /** The loop of renderValuesSection. */
    method RenderValueDocs(w: Writer, vs: seq<Value>)
      modifies w
      ensures w.buf == old(w.buf) + ValueDocsText(vs)
    {
      ghost var head := w.buf;
      var i := 0;
      while i < |vs|
        invariant 0 <= i <= |vs|
        invariant w.buf == head + ValueDocsText(vs[..i])
      {
        RenderValueDoc(w, vs[i]);
        ValueDocsStep(vs, i);
        Assoc(head, ValueDocsText(vs[..i]), ValueDocText(vs[i]));
        i := i + 1;
      }
      assert vs[..i] == vs;
    }

    /** The loop of renderFuncsSection. */
    method RenderFuncDocs(w: Writer, fs: seq<Func>, receiver: string)
      modifies w
      ensures w.buf == old(w.buf) + FuncDocsText(fs, receiver)
    {
      ghost var head := w.buf;
      var i := 0;
      while i < |fs|
        invariant 0 <= i <= |fs|
        invariant w.buf == head + FuncDocsText(fs[..i], receiver)
      {
        RenderFuncDoc(w, fs[i], receiver);
        FuncDocsStep(fs, receiver, i);
        Assoc(head, FuncDocsText(fs[..i], receiver), FuncDocText(fs[i], receiver));
        i := i + 1;
      }
      assert fs[..i] == fs;
    }

    /** renderValuesSection */
    method RenderValuesSection(w: Writer, title: string, vs: seq<Value>)
      modifies w
      ensures w.buf == old(w.buf) + ValuesSectionText(title, vs)
    {
      if |vs| == 0 {
        assert w.buf + "" == w.buf;
        return;
      }
      ghost var start := w.buf;
      var head := "### " + title + "\n\n";
      w.Write(head);
      RenderValueDocs(w, vs);
      Assoc(start, head, ValueDocsText(vs));
      w.Write("\n");
      Assoc(start, head + ValueDocsText(vs), "\n");
    }

    /** renderFuncsSection */
    method RenderFuncsSection(w: Writer, title: string, fs: seq<Func>, receiver: string)
      modifies w
      ensures w.buf == old(w.buf) + FuncsSectionText(title, fs, receiver)
    {
      if |fs| == 0 {
        assert w.buf + "" == w.buf;
        return;
      }
      ghost var start := w.buf;
      var head := "### " + title + "\n\n";
      w.Write(head);
      RenderFuncDocs(w, fs, receiver);
      Assoc(start, head, FuncDocsText(fs, receiver));
      w.Write("\n");
      Assoc(start, head + FuncDocsText(fs, receiver), "\n");
    }

    /** renderTypeDoc */
    method RenderTypeDoc(w: Writer, t: TypeDoc)
      modifies w
      ensures w.buf == old(w.buf) + TypePageText(t)
    {
      ghost var start := w.buf;
      var head := "## type " + t.name + "\n\n";
      w.Write(head);
      ghost var acc := head;
      WriteCodeBlock(w, t.decl);
      Assoc(start, acc, CodeBlockText(t.decl));
      acc := acc + CodeBlockText(t.decl);
      WriteDoc(w, t.doc);
      Assoc(start, acc, DocBlockText(t.doc));
      acc := acc + DocBlockText(t.doc);
      RenderValuesSection(w, "Constants", t.consts);
      Assoc(start, acc, ValuesSectionText("Constants", t.consts));
      acc := acc + ValuesSectionText("Constants", t.consts);
      RenderValuesSection(w, "Variables", t.vars);
      Assoc(start, acc, ValuesSectionText("Variables", t.vars));
      acc := acc + ValuesSectionText("Variables", t.vars);
      RenderFuncsSection(w, "Functions returning " + t.name, t.funcs, "");
      Assoc(start, acc, FuncsSectionText("Functions returning " + t.name, t.funcs, ""));
      acc := acc + FuncsSectionText("Functions returning " + t.name, t.funcs, "");
      RenderFuncsSection(w, "Methods", t.methods, t.name);
      Assoc(start, acc, FuncsSectionText("Methods", t.methods, t.name));
      assert TypePageText(t) == acc + FuncsSectionText("Methods", t.methods, t.name);
    }

    lemma TypePagesStep(ts: seq<TypeDoc>, i: nat)
      requires i < |ts|
      ensures TypePagesText(ts[..i + 1]) == TypePagesText(ts[..i]) + TypePageText(ts[i])
    {
      assert ts[..i + 1][..i] == ts[..i];
    }

    /** renderTypesSection */
    method RenderTypesSection(w: Writer, ts: seq<TypeDoc>)
      modifies w
      ensures w.buf == old(w.buf) + TypePagesText(ts)
    {
      ghost var head := w.buf;
      var i := 0;
      while i < |ts|
        invariant 0 <= i <= |ts|
        invariant w.buf == head + TypePagesText(ts[..i])
      {
        RenderTypeDoc(w, ts[i]);
        TypePagesStep(ts, i);
        Assoc(head, TypePagesText(ts[..i]), TypePageText(ts[i]));
        i := i + 1;
      }
      assert ts[..i] == ts;
    }

    lemma TypesNamedStep(ts: seq<TypeDoc>, symbol: string, i: nat)
      requires i < |ts|
      ensures Matches(ts[i].name, symbol) ==>
        TypesNamedText(ts[..i + 1], symbol) == TypesNamedText(ts[..i], symbol) + TypePageText(ts[i])
      ensures !Matches(ts[i].name, symbol) ==> TypesNamedText(ts[..i + 1], symbol) == TypesNamedText(ts[..i], symbol)
      ensures AnyTypeNamed(ts[..i + 1], symbol) <==> AnyTypeNamed(ts[..i], symbol) || Matches(ts[i].name, symbol)
    {
      assert ts[..i + 1][..i] == ts[..i];
      assert ts[..i + 1][i] == ts[i];
      if AnyTypeNamed(ts[..i + 1], symbol) && !Matches(ts[i].name, symbol) {
        var j :| 0 <= j < i + 1 && Matches(ts[..i + 1][j].name, symbol);
        assert ts[..i][j] == ts[..i + 1][j];
      }
      if AnyTypeNamed(ts[..i], symbol) {
        var j :| 0 <= j < i && Matches(ts[..i][j].name, symbol);
        assert ts[..i + 1][j] == ts[..i][j];
      }
    }

    /** The first loop of renderSymbol: the types of the name. */
    method RenderTypesNamed(w: Writer, ts: seq<TypeDoc>, symbol: string) returns (rendered: bool)
      modifies w
      ensures w.buf == old(w.buf) + TypesNamedText(ts, symbol)
      ensures rendered <==> AnyTypeNamed(ts, symbol)
    {
      ghost var head := w.buf;
      rendered := false;
      var i := 0;
      while i < |ts|
        invariant 0 <= i <= |ts|
        invariant w.buf == head + TypesNamedText(ts[..i], symbol)
        invariant rendered <==> AnyTypeNamed(ts[..i], symbol)
      {
        TypesNamedStep(ts, symbol, i);
        ghost var any := AnyTypeNamed(ts[..i + 1], symbol);
        assert any <==> rendered || Matches(ts[i].name, symbol);
        if Matches(ts[i].name, symbol) {
          RenderTypeDoc(w, ts[i]);
          Assoc(head, TypesNamedText(ts[..i], symbol), TypePageText(ts[i]));
          rendered := true;
        }
        assert rendered == any;
        i := i + 1;
      }
      assert ts[..i] == ts;
    }

    lemma FuncsNamedStep(fs: seq<Func>, symbol: string, receiver: string, i: nat)
      requires i < |fs|
      ensures Matches(fs[i].name, symbol) ==>
        FuncsNamedText(fs[..i + 1], symbol, receiver) == FuncsNamedText(fs[..i], symbol, receiver) + FuncDocText(fs[i], receiver)
      ensures !Matches(fs[i].name, symbol) ==>
        FuncsNamedText(fs[..i + 1], symbol, receiver) == FuncsNamedText(fs[..i], symbol, receiver)
      ensures AnyFuncNamed(fs[..i + 1], symbol) <==> AnyFuncNamed(fs[..i], symbol) || Matches(fs[i].name, symbol)
    {
      assert fs[..i + 1][..i] == fs[..i];
      assert fs[..i + 1][i] == fs[i];
      if AnyFuncNamed(fs[..i + 1], symbol) && !Matches(fs[i].name, symbol) {
        var j :| 0 <= j < i + 1 && Matches(fs[..i + 1][j].name, symbol);
        assert fs[..i][j] == fs[..i + 1][j];
      }
      if AnyFuncNamed(fs[..i], symbol) {
        var j :| 0 <= j < i && Matches(fs[..i][j].name, symbol);
        assert fs[..i + 1][j] == fs[..i][j];
      }
    }

    /** A loop of renderSymbol or renderMethod over functions: those of the
        name, headed with the receiver's type when there is one. */
    method RenderFuncsNamed(w: Writer, fs: seq<Func>, symbol: string, receiver: string) returns (rendered: bool)
      modifies w
      ensures w.buf == old(w.buf) + FuncsNamedText(fs, symbol, receiver)
      ensures rendered <==> AnyFuncNamed(fs, symbol)
    {
      ghost var head := w.buf;
      rendered := false;
      var i := 0;
      while i < |fs|
        invariant 0 <= i <= |fs|
        invariant w.buf == head + FuncsNamedText(fs[..i], symbol, receiver)
        invariant rendered <==> AnyFuncNamed(fs[..i], symbol)
      {
        FuncsNamedStep(fs, symbol, receiver, i);
        if Matches(fs[i].name, symbol) {
          RenderFuncDoc(w, fs[i], receiver);
          Assoc(head, FuncsNamedText(fs[..i], symbol, receiver), FuncDocText(fs[i], receiver));
          rendered := true;
        }
        i := i + 1;
      }
      assert fs[..i] == fs;
    }

    lemma ValuesNamedStep(vs: seq<Value>, symbol: string, i: nat)
      requires i < |vs|
      ensures HasName(vs[i], symbol) ==>
        ValuesNamedText(vs[..i + 1], symbol) == ValuesNamedText(vs[..i], symbol) + ValueDocText(vs[i])
      ensures !HasName(vs[i], symbol) ==> ValuesNamedText(vs[..i + 1], symbol) == ValuesNamedText(vs[..i], symbol)
      ensures AnyValueNamed(vs[..i + 1], symbol) <==> AnyValueNamed(vs[..i], symbol) || HasName(vs[i], symbol)
    {
      assert vs[..i + 1][..i] == vs[..i];
      assert vs[..i + 1][i] == vs[i];
      if AnyValueNamed(vs[..i + 1], symbol) && !HasName(vs[i], symbol) {
        var j :| 0 <= j < i + 1 && HasName(vs[..i + 1][j], symbol);
        assert vs[..i][j] == vs[..i + 1][j];
      }
      if AnyValueNamed(vs[..i], symbol) {
        var j :| 0 <= j < i && HasName(vs[..i][j], symbol);
        assert vs[..i + 1][j] == vs[..i][j];
      }
    }

    /** A loop of renderSymbol over values: the groups that declare the name. */
    method RenderValuesNamed(w: Writer, vs: seq<Value>, symbol: string) returns (rendered: bool)
      modifies w
      ensures w.buf == old(w.buf) + ValuesNamedText(vs, symbol)
      ensures rendered <==> AnyValueNamed(vs, symbol)
    {
      ghost var head := w.buf;
      rendered := false;
      var i := 0;
      while i < |vs|
        invariant 0 <= i <= |vs|
        invariant w.buf == head + ValuesNamedText(vs[..i], symbol)
        invariant rendered <==> AnyValueNamed(vs[..i], symbol)
      {
        ValuesNamedStep(vs, symbol, i);
        var named := ValueHasName(options.caseSensitive, vs[i].names, symbol);
        if named {
          RenderValueDoc(w, vs[i]);
          Assoc(head, ValuesNamedText(vs[..i], symbol), ValueDocText(vs[i]));
          rendered := true;
        }
        i := i + 1;
      }
      assert vs[..i] == vs;
    }

    /** One iteration of the last loop of renderSymbol. */
    method RenderTypeMembers(w: Writer, t: TypeDoc, symbol: string) returns (rendered: bool)
      modifies w
      ensures w.buf == old(w.buf) + TypeMembersText(t, symbol)
      ensures rendered <==> HasMemberNamed(t, symbol)
    {
      ghost var start := w.buf;
      var inConsts := RenderValuesNamed(w, t.consts, symbol);
      var inVars := RenderValuesNamed(w, t.vars, symbol);
      Assoc(start, ValuesNamedText(t.consts, symbol), ValuesNamedText(t.vars, symbol));
      var inFuncs := RenderFuncsNamed(w, t.funcs, symbol, t.name);
      Assoc(start, ValuesNamedText(t.consts, symbol) + ValuesNamedText(t.vars, symbol), FuncsNamedText(t.funcs, symbol, t.name));
      rendered := inConsts || inVars || inFuncs;
    }

    lemma MembersNamedStep(ts: seq<TypeDoc>, symbol: string, i: nat)
      requires i < |ts|
      ensures MembersNamedText(ts[..i + 1], symbol) == MembersNamedText(ts[..i], symbol) + TypeMembersText(ts[i], symbol)
      ensures AnyMemberNamed(ts[..i + 1], symbol) <==> AnyMemberNamed(ts[..i], symbol) || HasMemberNamed(ts[i], symbol)
    {
      assert ts[..i + 1][..i] == ts[..i];
      assert ts[..i + 1][i] == ts[i];
      if AnyMemberNamed(ts[..i + 1], symbol) && !HasMemberNamed(ts[i], symbol) {
        var j :| 0 <= j < i + 1 && HasMemberNamed(ts[..i + 1][j], symbol);
        assert ts[..i][j] == ts[..i + 1][j];
      }
      if AnyMemberNamed(ts[..i], symbol) {
        var j :| 0 <= j < i && HasMemberNamed(ts[..i][j], symbol);
        assert ts[..i + 1][j] == ts[..i][j];
      }
    }

    /** The last loop of renderSymbol. */
    method RenderMembersNamed(w: Writer, ts: seq<TypeDoc>, symbol: string) returns (rendered: bool)
      modifies w
      ensures w.buf == old(w.buf) + MembersNamedText(ts, symbol)
      ensures rendered <==> AnyMemberNamed(ts, symbol)
    {
      ghost var head := w.buf;
      rendered := false;
      var i := 0;
      while i < |ts|
        invariant 0 <= i <= |ts|
        invariant w.buf == head + MembersNamedText(ts[..i], symbol)
        invariant rendered <==> AnyMemberNamed(ts[..i], symbol)
      {
        MembersNamedStep(ts, symbol, i);
        var found := RenderTypeMembers(w, ts[i], symbol);
        Assoc(head, MembersNamedText(ts[..i], symbol), TypeMembersText(ts[i], symbol));
        rendered := rendered || found;
        i := i + 1;
      }
      assert ts[..i] == ts;
    }

    /** renderSymbol */
    method RenderSymbol(w: Writer, symbol: string) returns (rendered: bool)
      modifies w
      ensures w.buf == old(w.buf) + SymbolPageText(symbol)
      ensures rendered <==> SymbolFound(symbol)
    {
      ghost var start := w.buf;
      var inTypes := RenderTypesNamed(w, pkg.types, symbol);
      ghost var acc := TypesNamedText(pkg.types, symbol);
      var inFuncs := RenderFuncsNamed(w, pkg.funcs, symbol, "");
      Assoc(start, acc, FuncsNamedText(pkg.funcs, symbol, ""));
      acc := acc + FuncsNamedText(pkg.funcs, symbol, "");
      var inConsts := RenderValuesNamed(w, pkg.consts, symbol);
      Assoc(start, acc, ValuesNamedText(pkg.consts, symbol));
      acc := acc + ValuesNamedText(pkg.consts, symbol);
      var inVars := RenderValuesNamed(w, pkg.vars, symbol);
      Assoc(start, acc, ValuesNamedText(pkg.vars, symbol));
      acc := acc + ValuesNamedText(pkg.vars, symbol);
      var inMembers := RenderMembersNamed(w, pkg.types, symbol);
      Assoc(start, acc, MembersNamedText(pkg.types, symbol));
      rendered := inTypes || inFuncs || inConsts || inVars || inMembers;
    }

    lemma FieldNamesStep(typeName: string, field: Field, names: seq<string>, fieldName: string, i: nat)
      requires i < |names|
      ensures Matches(names[i], fieldName) ==>
        FieldNamesNamedText(typeName, field, names[..i + 1], fieldName)
        == FieldNamesNamedText(typeName, field, names[..i], fieldName) + FieldDocText(typeName, field, names[i])
      ensures !Matches(names[i], fieldName) ==>
        FieldNamesNamedText(typeName, field, names[..i + 1], fieldName) == FieldNamesNamedText(typeName, field, names[..i], fieldName)
      ensures AnyNameMatches(names[..i + 1], fieldName) <==> AnyNameMatches(names[..i], fieldName) || Matches(names[i], fieldName)
    {
      assert names[..i + 1][..i] == names[..i];
      assert names[..i + 1][i] == names[i];
      if AnyNameMatches(names[..i + 1], fieldName) && !Matches(names[i], fieldName) {
        var j :| 0 <= j < i + 1 && Matches(names[..i + 1][j], fieldName);
        assert names[..i][j] == names[..i + 1][j];
      }
      if AnyNameMatches(names[..i], fieldName) {
        var j :| 0 <= j < i && Matches(names[..i][j], fieldName);
        assert names[..i + 1][j] == names[..i][j];
      }
    }

    /** One name of a field, as renderFieldDoc writes it. */
    method RenderFieldName(w: Writer, typeName: string, field: Field, name: string)
      modifies w
      ensures w.buf == old(w.buf) + FieldDocText(typeName, field, name)
    {
      if options.short {
        w.Write(BulletLine(typeName + "." + name, SummaryText(field.doc)) + "\n");
        assert FieldDocText(typeName, field, name) == BulletText(typeName + "." + name, field.doc);
        return;
      }
      ghost var start := w.buf;
      var head := "#### " + typeName + "." + name + "\n\n";
      w.Write(head);
      WriteCodeBlock(w, field.code);
      Assoc(start, head, CodeBlockText(field.code));
      WriteDoc(w, field.doc);
      Assoc(start, head + CodeBlockText(field.code), DocBlockText(field.doc));
      assert FieldDocText(typeName, field, name) == head + CodeBlockText(field.code) + DocBlockText(field.doc);
    }

    /** The inner loop of renderFieldDoc: the names of one field that match. */
    method RenderFieldNames(w: Writer, typeName: string, field: Field, names: seq<string>, fieldName: string)
      returns (rendered: bool)
      modifies w
      ensures w.buf == old(w.buf) + FieldNamesNamedText(typeName, field, names, fieldName)
      ensures rendered <==> AnyNameMatches(names, fieldName)
    {
      ghost var head := w.buf;
      rendered := false;
      var i := 0;
      while i < |names|
        invariant 0 <= i <= |names|
        invariant w.buf == head + FieldNamesNamedText(typeName, field, names[..i], fieldName)
        invariant rendered <==> AnyNameMatches(names[..i], fieldName)
      {
        FieldNamesStep(typeName, field, names, fieldName, i);
        if Matches(names[i], fieldName) {
          RenderFieldName(w, typeName, field, names[i]);
          Assoc(head, FieldNamesNamedText(typeName, field, names[..i], fieldName), FieldDocText(typeName, field, names[i]));
          rendered := true;
        }
        i := i + 1;
      }
      assert names[..i] == names;
    }

    lemma FieldsNamedStep(typeName: string, fields: seq<Field>, fieldName: string, i: nat)
      requires i < |fields|
      ensures FieldsNamedText(typeName, fields[..i + 1], fieldName)
        == FieldsNamedText(typeName, fields[..i], fieldName) + FieldNamesNamedText(typeName, fields[i], fields[i].names, fieldName)
      ensures AnyFieldNamed(fields[..i + 1], fieldName) <==> AnyFieldNamed(fields[..i], fieldName) || AnyNameMatches(fields[i].names, fieldName)
    {
      assert fields[..i + 1][..i] == fields[..i];
      assert fields[..i + 1][i] == fields[i];
      if AnyFieldNamed(fields[..i + 1], fieldName) && !AnyNameMatches(fields[i].names, fieldName) {
        var j :| 0 <= j < i + 1 && AnyNameMatches(fields[..i + 1][j].names, fieldName);
        assert fields[..i][j] == fields[..i + 1][j];
      }
      if AnyFieldNamed(fields[..i], fieldName) {
        var j :| 0 <= j < i && AnyNameMatches(fields[..i][j].names, fieldName);
        assert fields[..i + 1][j] == fields[..i][j];
      }
    }

    /** renderFieldDoc: false when the type is not a struct; otherwise every
        name of every field that matches, in order. */
    method RenderFieldDoc(w: Writer, t: TypeDoc, fieldName: string) returns (rendered: bool)
      modifies w
      ensures w.buf == old(w.buf) + FieldsOfText(t, fieldName)
      ensures rendered <==> HasField(t, fieldName)
    {
      if t.fields.None? {
        return false;
      }
      var fields := t.fields.value;
      ghost var head := w.buf;
      rendered := false;
      var i := 0;
      while i < |fields|
        invariant 0 <= i <= |fields|
        invariant w.buf == head + FieldsNamedText(t.name, fields[..i], fieldName)
        invariant rendered <==> AnyFieldNamed(fields[..i], fieldName)
      {
        FieldsNamedStep(t.name, fields, fieldName, i);
        var found := RenderFieldNames(w, t.name, fields[i], fields[i].names, fieldName);
        Assoc(head, FieldsNamedText(t.name, fields[..i], fieldName), FieldNamesNamedText(t.name, fields[i], fields[i].names, fieldName));
        rendered := rendered || found;
        i := i + 1;
      }
      assert fields[..i] == fields;
    }

    lemma MethodsNamedStep(ts: seq<TypeDoc>, typeName: string, methodName: string, i: nat)
      requires i < |ts|
      ensures MethodsNamedText(ts[..i + 1], typeName, methodName)
        == MethodsNamedText(ts[..i], typeName, methodName) + TypeMethodsText(ts[i], typeName, methodName)
      ensures MethodFound(ts[..i + 1], typeName, methodName)
        <==> MethodFound(ts[..i], typeName, methodName) || TypeHasMethod(ts[i], typeName, methodName)
    {
      assert ts[..i + 1][..i] == ts[..i];
      assert ts[..i + 1][i] == ts[i];
      if MethodFound(ts[..i + 1], typeName, methodName) && !TypeHasMethod(ts[i], typeName, methodName) {
        var j :| 0 <= j < i + 1 && TypeHasMethod(ts[..i + 1][j], typeName, methodName);
        assert ts[..i][j] == ts[..i + 1][j];
      }
      if MethodFound(ts[..i], typeName, methodName) {
        var j :| 0 <= j < i && TypeHasMethod(ts[..i][j], typeName, methodName);
        assert ts[..i + 1][j] == ts[..i][j];
      }
    }

    /** One iteration of renderMethod's loop: a type of another name is
        skipped; otherwise its methods, then its fields, of the name. */
    method RenderTypeMethods(w: Writer, t: TypeDoc, typeName: string, methodName: string) returns (rendered: bool)
      modifies w
      ensures w.buf == old(w.buf) + TypeMethodsText(t, typeName, methodName)
      ensures rendered <==> TypeHasMethod(t, typeName, methodName)
    {
      if !Matches(t.name, typeName) {
        assert old(w.buf) + "" == old(w.buf);
        return false;
      }
      ghost var start := w.buf;
      var inMethods := RenderFuncsNamed(w, t.methods, methodName, t.name);
      var inFields := RenderFieldDoc(w, t, methodName);
      Assoc(start, FuncsNamedText(t.methods, methodName, t.name), FieldsOfText(t, methodName));
      rendered := inMethods || inFields;
    }

    /** renderMethod */
    method RenderMethod(w: Writer, typeName: string, methodName: string) returns (rendered: bool)
      modifies w
      ensures w.buf == old(w.buf) + MethodsNamedText(pkg.types, typeName, methodName)
      ensures rendered <==> MethodFound(pkg.types, typeName, methodName)
    {
      var ts := pkg.types;
      ghost var head := w.buf;
      rendered := false;
      var i := 0;
      while i < |ts|
        invariant 0 <= i <= |ts|
        invariant w.buf == head + MethodsNamedText(ts[..i], typeName, methodName)
        invariant rendered <==> MethodFound(ts[..i], typeName, methodName)
      {
        MethodsNamedStep(ts, typeName, methodName, i);
        var found := RenderTypeMethods(w, ts[i], typeName, methodName);
        Assoc(head, MethodsNamedText(ts[..i], typeName, methodName), TypeMethodsText(ts[i], typeName, methodName));
        rendered := rendered || found;
        i := i + 1;
      }
      assert ts[..i] == ts;
    }

    /** One loop of renderPackageSummary over values. */
    method AppendValueBullets(entries: seq<string>, vs: seq<Value>) returns (r: seq<string>)
      ensures r == entries + ValueBullets(vs)
    {
      r := entries;
      var i := 0;
      while i < |vs|
        invariant 0 <= i <= |vs|
        invariant r == entries + ValueBullets(vs[..i])
      {
        Assoc(entries, ValueBullets(vs[..i]), [ValueEntry(vs[i])]);
        r := r + [ValueEntry(vs[i])];
        assert vs[..i + 1][..i] == vs[..i];
        assert ValueBullets(vs[..i + 1]) == ValueBullets(vs[..i]) + [ValueEntry(vs[i])];
        i := i + 1;
      }
      assert vs[..i] == vs;
    }

    /** The loop of renderPackageSummary over functions. */
    method AppendFuncBullets(entries: seq<string>, fs: seq<Func>) returns (r: seq<string>)
      ensures r == entries + FuncBullets(fs)
    {
      r := entries;
      var i := 0;
      while i < |fs|
        invariant 0 <= i <= |fs|
        invariant r == entries + FuncBullets(fs[..i])
      {
        Assoc(entries, FuncBullets(fs[..i]), [FuncEntry(fs[i])]);
        r := r + [FuncEntry(fs[i])];
        assert fs[..i + 1][..i] == fs[..i];
        assert FuncBullets(fs[..i + 1]) == FuncBullets(fs[..i]) + [FuncEntry(fs[i])];
        i := i + 1;
      }
      assert fs[..i] == fs;
    }

    /** The loop of renderPackageSummary over types. */
    method AppendTypeBullets(entries: seq<string>, ts: seq<TypeDoc>) returns (r: seq<string>)
      ensures r == entries + TypeBullets(ts)
    {
      r := entries;
      var i := 0;
      while i < |ts|
        invariant 0 <= i <= |ts|
        invariant r == entries + TypeBullets(ts[..i])
      {
        Assoc(entries, TypeBullets(ts[..i]), [TypeEntry(ts[i])]);
        r := r + [TypeEntry(ts[i])];
        assert ts[..i + 1][..i] == ts[..i];
        assert TypeBullets(ts[..i + 1]) == TypeBullets(ts[..i]) + [TypeEntry(ts[i])];
        i := i + 1;
      }
      assert ts[..i] == ts;
    }

    /** The fmt.Fprintln loop of renderPackageSummary: each line, then a line break. */
    method WriteLines(w: Writer, lines: seq<string>)
      modifies w
      ensures w.buf == old(w.buf) + Terminated(lines)
    {
      ghost var head := w.buf;
      var i := 0;
      while i < |lines|
        invariant 0 <= i <= |lines|
        invariant w.buf == head + Terminated(lines[..i])
      {
        w.Write(lines[i] + "\n");
        assert lines[..i + 1][..i] == lines[..i];
        assert Terminated(lines[..i + 1]) == Terminated(lines[..i]) + lines[i] + "\n";
        Assoc(head, Terminated(lines[..i]), lines[i] + "\n");
        Assoc(Terminated(lines[..i]), lines[i], "\n");
        i := i + 1;
      }
      assert lines[..i] == lines;
    }

    /** renderPackageSummary */
    method RenderPackageSummary(w: Writer)
      modifies w
      ensures w.buf == old(w.buf) + SummaryTableText()
    {
      var entries: seq<string> := [];
      entries := AppendValueBullets(entries, pkg.consts);
      assert entries == ValueBullets(pkg.consts);
      ghost var vars: seq<string> := [];
      if pkg.name != "main" || options.includeMainVars || options.all {
        entries := AppendValueBullets(entries, pkg.vars);
        vars := ValueBullets(pkg.vars);
      } else {
        assert entries + [] == entries;
      }
      assert entries == ValueBullets(pkg.consts) + vars;
      ghost var funcs: seq<string> := [];
      ghost var before := entries;
      if pkg.name != "main" || options.includeMainFuncs || options.all {
        entries := AppendFuncBullets(entries, pkg.funcs);
        funcs := FuncBullets(pkg.funcs);
      } else {
        assert entries + [] == entries;
      }
      assert entries == before + funcs;
      entries := AppendTypeBullets(entries, pkg.types);
      assert entries == ValueBullets(pkg.consts) + vars + funcs + TypeBullets(pkg.types);
      if |entries| == 0 {
        assert old(w.buf) + "" == old(w.buf);
        return;
      }
      var sorted := SortStrings(entries);
      ghost var start := w.buf;
      WriteLines(w, sorted);
      w.Write("\n");
      Assoc(start, Terminated(sorted), "\n");
    }

    /** The heading step of renderPackage. */
    method WriteHeader(w: Writer)
      modifies w
      ensures w.buf == old(w.buf) + Header()
    {
      if pkg.name != "main" {
        ghost var start := w.buf;
        w.Write("# package " + pkg.name + "\n\n");
        if pkg.importPath != "" {
          w.Write("`import \"" + pkg.importPath + "\"`\n\n");
          Assoc(start, "# package " + pkg.name + "\n\n", "`import \"" + pkg.importPath + "\"`\n\n");
        }
      } else {
        assert old(w.buf) + "" == old(w.buf);
      }
    }

    /** The sections renderPackage writes for a command shown as a command. */
    method RenderCommandSections(w: Writer)
      modifies w
      ensures w.buf == old(w.buf) + CommandSectionsText()
    {
      ghost var start := w.buf;
      ghost var vars := "";
      if options.includeMainVars || options.all {
        RenderValuesSection(w, "Variables", pkg.vars);
        vars := ValuesSectionText("Variables", pkg.vars);
      } else {
        assert start + "" == start;
      }
      ghost var funcs := "";
      ghost var mid := w.buf;
      if options.includeMainFuncs || options.all {
        RenderFuncsSection(w, "Functions", pkg.funcs, "");
        funcs := FuncsSectionText("Functions", pkg.funcs, "");
      } else {
        assert mid + "" == mid;
      }
      Assoc(start, vars, funcs);
    }

    /** The sections renderPackage writes with -all. */
    method RenderAllSections(w: Writer)
      modifies w
      ensures w.buf == old(w.buf) + AllSectionsText()
    {
      ghost var start := w.buf;
      RenderValuesSection(w, "Constants", pkg.consts);
      RenderValuesSection(w, "Variables", pkg.vars);
      Assoc(start, ValuesSectionText("Constants", pkg.consts), ValuesSectionText("Variables", pkg.vars));
      ghost var acc := ValuesSectionText("Constants", pkg.consts) + ValuesSectionText("Variables", pkg.vars);
      RenderFuncsSection(w, "Functions", pkg.funcs, "");
      Assoc(start, acc, FuncsSectionText("Functions", pkg.funcs, ""));
      acc := acc + FuncsSectionText("Functions", pkg.funcs, "");
      RenderTypesSection(w, pkg.types);
      Assoc(start, acc, TypePagesText(pkg.types));
    }

    /** renderPackage: heading, package comment and summary table; then, for
        a command shown as a command, its requested sections, otherwise
        every section when -all is given. */
    method RenderPackage(w: Writer)
      modifies w
      ensures w.buf == old(w.buf) + PackagePageText()
    {
      ghost var start := w.buf;
      WriteHeader(w);
      WriteDoc(w, pkg.doc);
      Assoc(start, Header(), DocBlockText(pkg.doc));
      ghost var acc := Header() + DocBlockText(pkg.doc);
      RenderPackageSummary(w);
      Assoc(start, acc, SummaryTableText());
      acc := acc + SummaryTableText();
      ghost var tail := "";
      if CommandView() {
        RenderCommandSections(w);
        tail := CommandSectionsText();
      } else if options.all {
        RenderAllSections(w);
        tail := AllSectionsText();
      } else {
        assert start + acc + "" == start + acc;
      }
      Assoc(start, acc, tail);
    }
  }

  /** The result of documentTarget: the Markdown, the package summary (only
      for a whole package) and whether anything was found to document. */
  datatype Target = Target(markdown: string, summary: string, handled: bool)

  /** documentTarget: `built` is what buildDocPackage returned. A package
      page is always handled; a symbol or a method only when found. */
  method DocumentTarget(built: Result<Package, Failure>, symbol: string, methodName: string, opts: Options)
    returns (r: Result<Target, Failure>)
    ensures built.Err? ==> r == Err(built.error)
    ensures built.Ok? && symbol == "" ==>
      r == Ok(Target(Renderer(opts, built.value).PackagePageText(), SummaryText(built.value.doc), true))
    ensures built.Ok? && symbol != "" && methodName == "" ==>
      r == Ok(Target(Renderer(opts, built.value).SymbolPageText(symbol), "",
                     Renderer(opts, built.value).SymbolFound(symbol)))
    ensures built.Ok? && symbol != "" && methodName != "" ==>
      r == Ok(Target(Renderer(opts, built.value).MethodsNamedText(built.value.types, symbol, methodName), "",
                     Renderer(opts, built.value).MethodFound(built.value.types, symbol, methodName)))
  {
    if built.Err? {
      return Err(built.error);
    }
    var w := new Writer();
    var renderer := Renderer(opts, built.value);
    if symbol == "" {
      renderer.RenderPackage(w);
      assert w.buf == renderer.PackagePageText();
      return Ok(Target(w.buf, renderer.PackageSummary(), true));
    } else if methodName == "" {
      var ok := renderer.RenderSymbol(w, symbol);
      assert w.buf == renderer.SymbolPageText(symbol);
      return Ok(Target(w.buf, "", ok));
    } else {
      var ok := renderer.RenderMethod(w, symbol, methodName);
      assert w.buf == renderer.MethodsNamedText(built.value.types, symbol, methodName);
      return Ok(Target(w.buf, "", ok));
    }
  }
}
