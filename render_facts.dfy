/** What the renderer's output says about the package: when renderSymbol and
    renderMethod write anything, which pages a package page holds, and the
    layout of the summary table. */
module RenderFacts {
  import opened Text
  import opened Order
  import opened Results
  import opened Options
  import opened DocModel
  import opened Markdown
  import opened Render

  /** A bullet line of the -short listing ends its line. */
  lemma BulletNonEmpty(r: Renderer, signature: string, doc: string)
    ensures |r.BulletText(signature, doc)| > 0
  {
    var b := BulletLine(signature, SummaryText(doc));
    assert r.BulletText(signature, doc) == b + "\n";
  }

  /** renderValueDoc always writes something. */
  lemma ValueDocNonEmpty(r: Renderer, v: Value)
    ensures r.ValueDocText(v) != ""
  {
    if r.options.short {
      BulletNonEmpty(r, ValueTitle(v.names), v.doc);
    }
  }

  /** renderFuncDoc always writes something. */
  lemma FuncDocNonEmpty(r: Renderer, f: Func, receiver: string)
    ensures r.FuncDocText(f, receiver) != ""
  {
    if r.options.short {
      BulletNonEmpty(r, f.signature, f.doc);
    }
  }

  /** Each matching field name makes renderFieldDoc write something. */
  lemma FieldDocNonEmpty(r: Renderer, typeName: string, field: Field, name: string)
    ensures r.FieldDocText(typeName, field, name) != ""
  {
    if r.options.short {
      BulletNonEmpty(r, typeName + "." + name, field.doc);
    }
  }

  /** renderTypeDoc always writes its heading. */
  lemma TypePageNonEmpty(r: Renderer, t: TypeDoc)
    ensures r.TypePageText(t) != ""
  {
    assert |r.TypePageText(t)| >= |"## type "|;
  }

  /** The values loop of renderSymbol writes something exactly when some
      group declares the name. */
  lemma {:induction false} ValuesNamedEmpty(r: Renderer, vs: seq<Value>, symbol: string)
    ensures r.ValuesNamedText(vs, symbol) == "" <==> !r.AnyValueNamed(vs, symbol)
    decreases |vs|
  {
    if vs != [] {
      var i := |vs| - 1;
      ValuesNamedEmpty(r, vs[..i], symbol);
      r.ValuesNamedStep(vs, symbol, i);
      assert vs[..i + 1] == vs;
      ValueDocNonEmpty(r, vs[i]);
    }
  }

  /** The same for a loop over functions. */
  lemma {:induction false} FuncsNamedEmpty(r: Renderer, fs: seq<Func>, symbol: string, receiver: string)
    ensures r.FuncsNamedText(fs, symbol, receiver) == "" <==> !r.AnyFuncNamed(fs, symbol)
    decreases |fs|
  {
    if fs != [] {
      var i := |fs| - 1;
      FuncsNamedEmpty(r, fs[..i], symbol, receiver);
      r.FuncsNamedStep(fs, symbol, receiver, i);
      assert fs[..i + 1] == fs;
      FuncDocNonEmpty(r, fs[i], receiver);
    }
  }

  /** The same for the loop over types. */
  lemma {:induction false} TypesNamedEmpty(r: Renderer, ts: seq<TypeDoc>, symbol: string)
    ensures r.TypesNamedText(ts, symbol) == "" <==> !r.AnyTypeNamed(ts, symbol)
    decreases |ts|
  {
    if ts != [] {
      var i := |ts| - 1;
      TypesNamedEmpty(r, ts[..i], symbol);
      r.TypesNamedStep(ts, symbol, i);
      assert ts[..i + 1] == ts;
      TypePageNonEmpty(r, ts[i]);
    }
  }

  /** The same for the members grouped under types. */
  lemma {:induction false} MembersNamedEmpty(r: Renderer, ts: seq<TypeDoc>, symbol: string)
    ensures r.MembersNamedText(ts, symbol) == "" <==> !r.AnyMemberNamed(ts, symbol)
    decreases |ts|
  {
    if ts != [] {
      var i := |ts| - 1;
      var t := ts[i];
      MembersNamedEmpty(r, ts[..i], symbol);
      r.MembersNamedStep(ts, symbol, i);
      assert ts[..i + 1] == ts;
      ValuesNamedEmpty(r, t.consts, symbol);
      ValuesNamedEmpty(r, t.vars, symbol);
      FuncsNamedEmpty(r, t.funcs, symbol, t.name);
    }
  }

  /** renderSymbol writes something exactly when it returns true. */
  lemma SymbolPageEmpty(r: Renderer, symbol: string)
    ensures r.SymbolPageText(symbol) == "" <==> !r.SymbolFound(symbol)
  {
    TypesNamedEmpty(r, r.pkg.types, symbol);
    FuncsNamedEmpty(r, r.pkg.funcs, symbol, "");
    ValuesNamedEmpty(r, r.pkg.consts, symbol);
    ValuesNamedEmpty(r, r.pkg.vars, symbol);
    MembersNamedEmpty(r, r.pkg.types, symbol);
  }

  /** The names of one field: something is written exactly when one matches. */
  lemma {:induction false} FieldNamesEmpty(r: Renderer, typeName: string, field: Field, names: seq<string>, fieldName: string)
    ensures r.FieldNamesNamedText(typeName, field, names, fieldName) == "" <==> !r.AnyNameMatches(names, fieldName)
    decreases |names|
  {
    if names != [] {
      var i := |names| - 1;
      FieldNamesEmpty(r, typeName, field, names[..i], fieldName);
      r.FieldNamesStep(typeName, field, names, fieldName, i);
      assert names[..i + 1] == names;
      FieldDocNonEmpty(r, typeName, field, names[i]);
    }
  }

  /** The fields of a struct: something is written exactly when a name matches. */
  lemma {:induction false} FieldsNamedEmpty(r: Renderer, typeName: string, fields: seq<Field>, fieldName: string)
    ensures r.FieldsNamedText(typeName, fields, fieldName) == "" <==> !r.AnyFieldNamed(fields, fieldName)
    decreases |fields|
  {
    if fields != [] {
      var i := |fields| - 1;
      FieldsNamedEmpty(r, typeName, fields[..i], fieldName);
      r.FieldsNamedStep(typeName, fields, fieldName, i);
      assert fields[..i + 1] == fields;
      FieldNamesEmpty(r, typeName, fields[i], fields[i].names, fieldName);
    }
  }

  /** renderFieldDoc writes something exactly when it returns true. */
  lemma FieldDocEmpty(r: Renderer, t: TypeDoc, fieldName: string)
    ensures r.FieldsOfText(t, fieldName) == "" <==> !r.HasField(t, fieldName)
  {
    if t.fields.Some? {
      FieldsNamedEmpty(r, t.name, t.fields.value, fieldName);
    }
  }

  /** The loop of renderMethod: something is written exactly when a type of
      the name has a method or a field of the other name. */
  lemma {:induction false} MethodsNamedEmpty(r: Renderer, ts: seq<TypeDoc>, typeName: string, methodName: string)
    ensures r.MethodsNamedText(ts, typeName, methodName) == "" <==> !r.MethodFound(ts, typeName, methodName)
    decreases |ts|
  {
    if ts != [] {
      var i := |ts| - 1;
      var t := ts[i];
      MethodsNamedEmpty(r, ts[..i], typeName, methodName);
      r.MethodsNamedStep(ts, typeName, methodName, i);
      assert ts[..i + 1] == ts;
      FuncsNamedEmpty(r, t.methods, methodName, t.name);
      FieldDocEmpty(r, t, methodName);
    }
  }

  /** renderMethod writes something exactly when it returns true. */
  lemma MethodPageEmpty(r: Renderer, typeName: string, methodName: string)
    ensures r.MethodsNamedText(r.pkg.types, typeName, methodName) == ""
      <==> !r.MethodFound(r.pkg.types, typeName, methodName)
  {
    MethodsNamedEmpty(r, r.pkg.types, typeName, methodName);
  }

  /** The last type of the list, when its name matches, ends the page. */
  lemma LastNamedHolds(r: Renderer, ts: seq<TypeDoc>, symbol: string, i: nat)
    requires i == |ts| - 1 && r.Matches(ts[i].name, symbol)
    ensures Contains(r.TypesNamedText(ts, symbol), r.TypePageText(ts[i]))
  {
    ContainsHalves(r.TypesNamedText(ts[..|ts| - 1], symbol), r.TypePageText(ts[|ts| - 1]));
  }

  /** A page the loop wrote before the last type stays on the page. */
  lemma FrontNamedHolds(r: Renderer, ts: seq<TypeDoc>, symbol: string, i: nat)
    requires i < |ts| - 1
    requires Contains(r.TypesNamedText(ts[..|ts| - 1], symbol), r.TypePageText(ts[..|ts| - 1][i]))
    ensures Contains(r.TypesNamedText(ts, symbol), r.TypePageText(ts[i]))
  {
    assert ts[..|ts| - 1][i] == ts[i];
    var last := if r.Matches(ts[|ts| - 1].name, symbol) then r.TypePageText(ts[|ts| - 1]) else "";
    ContainsInFront(r.TypesNamedText(ts[..|ts| - 1], symbol), last, r.TypePageText(ts[i]));
  }

  /** Each type whose name matches is on the page of that loop. */
  lemma {:induction false} TypesNamedHolds(r: Renderer, ts: seq<TypeDoc>, symbol: string, i: nat)
    requires i < |ts| && r.Matches(ts[i].name, symbol)
    ensures Contains(r.TypesNamedText(ts, symbol), r.TypePageText(ts[i]))
    decreases |ts|
  {
    if i < |ts| - 1 {
      assert ts[..|ts| - 1][i] == ts[i];
      TypesNamedHolds(r, ts[..|ts| - 1], symbol, i);
      FrontNamedHolds(r, ts, symbol, i);
    } else {
      LastNamedHolds(r, ts, symbol, i);
    }
  }

  /** renderSymbol writes the whole page of every type of the name. */
  lemma SymbolPageHoldsType(r: Renderer, symbol: string, i: nat)
    requires i < |r.pkg.types| && r.Matches(r.pkg.types[i].name, symbol)
    ensures Contains(r.SymbolPageText(symbol), r.TypePageText(r.pkg.types[i]))
  {
    var a := r.TypesNamedText(r.pkg.types, symbol);
    var b := r.FuncsNamedText(r.pkg.funcs, symbol, "");
    var c := r.ValuesNamedText(r.pkg.consts, symbol);
    var d := r.ValuesNamedText(r.pkg.vars, symbol);
    var e := r.MembersNamedText(r.pkg.types, symbol);
    TypesNamedHolds(r, r.pkg.types, symbol, i);
    ContainsHalves(a, b);
    ContainsTransitive(a + b, a, r.TypePageText(r.pkg.types[i]));
    ContainsHalves(a + b, c);
    ContainsTransitive(a + b + c, a + b, r.TypePageText(r.pkg.types[i]));
    ContainsHalves(a + b + c, d);
    ContainsTransitive(a + b + c + d, a + b + c, r.TypePageText(r.pkg.types[i]));
    ContainsHalves(a + b + c + d, e);
    ContainsTransitive(a + b + c + d + e, a + b + c + d, r.TypePageText(r.pkg.types[i]));
  }

  /** The last type's page ends the types section. */
  lemma LastPageHolds(r: Renderer, ts: seq<TypeDoc>, i: nat)
    requires i == |ts| - 1
    ensures Contains(r.TypePagesText(ts), r.TypePageText(ts[i]))
  {
    ContainsHalves(r.TypePagesText(ts[..|ts| - 1]), r.TypePageText(ts[|ts| - 1]));
  }

  /** A type page written before the last one stays in the section. */
  lemma FrontPageHolds(r: Renderer, ts: seq<TypeDoc>, i: nat)
    requires i < |ts| - 1
    requires Contains(r.TypePagesText(ts[..|ts| - 1]), r.TypePageText(ts[..|ts| - 1][i]))
    ensures Contains(r.TypePagesText(ts), r.TypePageText(ts[i]))
  {
    assert ts[..|ts| - 1][i] == ts[i];
    ContainsInFront(r.TypePagesText(ts[..|ts| - 1]), r.TypePageText(ts[|ts| - 1]), r.TypePageText(ts[i]));
  }

  /** Every type is on the page of renderTypesSection. */
  lemma {:induction false} TypePagesHold(r: Renderer, ts: seq<TypeDoc>, i: nat)
    requires i < |ts|
    ensures Contains(r.TypePagesText(ts), r.TypePageText(ts[i]))
    decreases |ts|
  {
    if i < |ts| - 1 {
      TypePagesHold(r, ts[..|ts| - 1], i);
      FrontPageHolds(r, ts, i);
    } else {
      LastPageHolds(r, ts, i);
    }
  }

  /** With -all, the package page holds the page of every type. */
  lemma AllPageHoldsTypes(r: Renderer, i: nat)
    requires r.options.all && i < |r.pkg.types|
    ensures Contains(r.PackagePageText(), r.TypePageText(r.pkg.types[i]))
  {
    var page := r.TypePageText(r.pkg.types[i]);
    var head := r.Header() + r.DocBlockText(r.pkg.doc) + r.SummaryTableText();
    var front := r.ValuesSectionText("Constants", r.pkg.consts) + r.ValuesSectionText("Variables", r.pkg.vars)
      + r.FuncsSectionText("Functions", r.pkg.funcs, "");
    TypePagesHold(r, r.pkg.types, i);
    ContainsHalves(front, r.TypePagesText(r.pkg.types));
    assert r.AllSectionsText() == front + r.TypePagesText(r.pkg.types);
    ContainsTransitive(r.AllSectionsText(), r.TypePagesText(r.pkg.types), page);
    assert r.PackagePageText() == head + r.AllSectionsText();
    ContainsHalves(head, r.AllSectionsText());
    ContainsTransitive(r.PackagePageText(), r.AllSectionsText(), page);
  }

  /** renderSymbol does not look at methods: two packages that differ only
      in the methods of their types find the same symbols. */
  lemma SymbolIgnoresMethods(r: Renderer, ts: seq<TypeDoc>, symbol: string)
    requires |ts| == |r.pkg.types|
    requires forall i :: 0 <= i < |ts| ==> ts[i] == r.pkg.types[i].(methods := ts[i].methods)
    ensures Renderer(r.options, r.pkg.(types := ts)).SymbolFound(symbol) == r.SymbolFound(symbol)
  {
    var r2 := Renderer(r.options, r.pkg.(types := ts));
    if r.AnyTypeNamed(r.pkg.types, symbol) {
      var i :| 0 <= i < |r.pkg.types| && r.Matches(r.pkg.types[i].name, symbol);
      assert r2.Matches(ts[i].name, symbol);
    }
    if r2.AnyTypeNamed(ts, symbol) {
      var i :| 0 <= i < |ts| && r2.Matches(ts[i].name, symbol);
      assert r.Matches(r.pkg.types[i].name, symbol);
    }
    if r.AnyMemberNamed(r.pkg.types, symbol) {
      var i :| 0 <= i < |r.pkg.types| && r.HasMemberNamed(r.pkg.types[i], symbol);
      assert r2.HasMemberNamed(ts[i], symbol);
    }
    if r2.AnyMemberNamed(ts, symbol) {
      var i :| 0 <= i < |ts| && r2.HasMemberNamed(ts[i], symbol);
      assert r.HasMemberNamed(r.pkg.types[i], symbol);
    }
  }

  /** The names of each group of values are single lines. */
  predicate NamesOneLine(vs: seq<Value>)
  {
    forall i, k :: 0 <= i < |vs| && 0 <= k < |vs[i].names| ==> '\n' !in vs[i].names[k]
  }

  /** The names and printed signatures that go into the summary table are
      single lines: Go identifiers are, and so is a signature whose
      parameters were declared on one line. */
  predicate SummaryPartsOneLine(p: Package)
  {
    && NamesOneLine(p.consts)
    && NamesOneLine(p.vars)
    && (forall i :: 0 <= i < |p.funcs| ==> '\n' !in p.funcs[i].signature)
    && (forall i :: 0 <= i < |p.types| ==> '\n' !in p.types[i].name)
  }

  lemma LastValueBullet(r: Renderer, vs: seq<Value>, i: nat)
    requires i == |vs| - 1
    ensures r.ValueBullets(vs)[i] == r.ValueEntry(vs[i])
  {
    assert r.ValueBullets(vs)[|vs| - 1] == r.ValueEntry(vs[|vs| - 1]);
  }

  lemma FrontValueBullet(r: Renderer, vs: seq<Value>, i: nat)
    requires i < |vs| - 1
    requires r.ValueBullets(vs[..|vs| - 1])[i] == r.ValueEntry(vs[..|vs| - 1][i])
    ensures r.ValueBullets(vs)[i] == r.ValueEntry(vs[i])
  {
    assert vs[..|vs| - 1][i] == vs[i];
  }

  /** The loops of renderPackageSummary over constants and variables: the entry at
      each place is the bullet line of the group at that place. */
  lemma {:induction false} ValueBulletAt(r: Renderer, vs: seq<Value>, i: nat)
    requires i < |vs|
    ensures r.ValueBullets(vs)[i] == r.ValueEntry(vs[i])
    decreases |vs|
  {
    if i < |vs| - 1 {
      ValueBulletAt(r, vs[..|vs| - 1], i);
      FrontValueBullet(r, vs, i);
    } else {
      LastValueBullet(r, vs, i);
    }
  }

  lemma LastFuncBullet(r: Renderer, fs: seq<Func>, i: nat)
    requires i == |fs| - 1
    ensures r.FuncBullets(fs)[i] == r.FuncEntry(fs[i])
  {
    assert r.FuncBullets(fs)[|fs| - 1] == r.FuncEntry(fs[|fs| - 1]);
  }

  lemma FrontFuncBullet(r: Renderer, fs: seq<Func>, i: nat)
    requires i < |fs| - 1
    requires r.FuncBullets(fs[..|fs| - 1])[i] == r.FuncEntry(fs[..|fs| - 1][i])
    ensures r.FuncBullets(fs)[i] == r.FuncEntry(fs[i])
  {
    assert fs[..|fs| - 1][i] == fs[i];
  }

  /** The functions loop of renderPackageSummary: one entry per function, in order. */
  lemma {:induction false} FuncBulletAt(r: Renderer, fs: seq<Func>, i: nat)
    requires i < |fs|
    ensures r.FuncBullets(fs)[i] == r.FuncEntry(fs[i])
    decreases |fs|
  {
    if i < |fs| - 1 {
      FuncBulletAt(r, fs[..|fs| - 1], i);
      FrontFuncBullet(r, fs, i);
    } else {
      LastFuncBullet(r, fs, i);
    }
  }

  lemma LastTypeBullet(r: Renderer, ts: seq<TypeDoc>, i: nat)
    requires i == |ts| - 1
    ensures r.TypeBullets(ts)[i] == r.TypeEntry(ts[i])
  {
    assert r.TypeBullets(ts)[|ts| - 1] == r.TypeEntry(ts[|ts| - 1]);
  }

  lemma FrontTypeBullet(r: Renderer, ts: seq<TypeDoc>, i: nat)
    requires i < |ts| - 1
    requires r.TypeBullets(ts[..|ts| - 1])[i] == r.TypeEntry(ts[..|ts| - 1][i])
    ensures r.TypeBullets(ts)[i] == r.TypeEntry(ts[i])
  {
    assert ts[..|ts| - 1][i] == ts[i];
  }

  /** The types loop of renderPackageSummary: one entry per type, in order. */
  lemma {:induction false} TypeBulletAt(r: Renderer, ts: seq<TypeDoc>, i: nat)
    requires i < |ts|
    ensures r.TypeBullets(ts)[i] == r.TypeEntry(ts[i])
    decreases |ts|
  {
    if i < |ts| - 1 {
      TypeBulletAt(r, ts[..|ts| - 1], i);
      FrontTypeBullet(r, ts, i);
    } else {
      LastTypeBullet(r, ts, i);
    }
  }

  /** Sorting keeps every entry. */
  lemma InSorted(entries: seq<string>, e: string)
    requires e in entries
    ensures e in SortStrings(entries)
  {
    assert e in multiset(entries);
  }

  /** The summary table has a line for every constant group and every type,
      for the variables and the functions exactly when they are listed, and
      for nothing else. */
  lemma SummaryTableEntries(r: Renderer)
    ensures forall i :: 0 <= i < |r.pkg.consts| ==> r.ValueEntry(r.pkg.consts[i]) in SortStrings(r.SummaryEntries())
    ensures forall i :: 0 <= i < |r.pkg.types| ==> r.TypeEntry(r.pkg.types[i]) in SortStrings(r.SummaryEntries())
    ensures r.ListsVars() ==>
      forall i :: 0 <= i < |r.pkg.vars| ==> r.ValueEntry(r.pkg.vars[i]) in SortStrings(r.SummaryEntries())
    ensures r.ListsFuncs() ==>
      forall i :: 0 <= i < |r.pkg.funcs| ==> r.FuncEntry(r.pkg.funcs[i]) in SortStrings(r.SummaryEntries())
    ensures |SortStrings(r.SummaryEntries())| == |r.pkg.consts| + |r.pkg.types|
      + (if r.ListsVars() then |r.pkg.vars| else 0) + (if r.ListsFuncs() then |r.pkg.funcs| else 0)
  {
    var p := r.pkg;
    forall i | 0 <= i < |p.consts| ensures r.ValueEntry(p.consts[i]) in SortStrings(r.SummaryEntries()) {
      ConstListed(r, i);
    }
    forall i | 0 <= i < |p.types| ensures r.TypeEntry(p.types[i]) in SortStrings(r.SummaryEntries()) {
      TypeListed(r, i);
    }
    if r.ListsVars() {
      forall i | 0 <= i < |p.vars| ensures r.ValueEntry(p.vars[i]) in SortStrings(r.SummaryEntries()) {
        VarListed(r, i);
      }
    }
    if r.ListsFuncs() {
      forall i | 0 <= i < |p.funcs| ensures r.FuncEntry(p.funcs[i]) in SortStrings(r.SummaryEntries()) {
        FuncListed(r, i);
      }
    }
    var entries := r.SummaryEntries();
    var sorted := SortStrings(entries);
    assert |sorted| == |multiset(sorted)| == |multiset(entries)| == |entries|;
  }

  lemma ConstListed(r: Renderer, i: nat)
    requires i < |r.pkg.consts|
    ensures r.ValueEntry(r.pkg.consts[i]) in SortStrings(r.SummaryEntries())
  {
    var entries := r.SummaryEntries();
    var front := r.ValueBullets(r.pkg.consts);
    ValueBulletAt(r, r.pkg.consts, i);
    assert entries[i] == front[i];
    InSorted(entries, front[i]);
  }

  lemma VarListed(r: Renderer, i: nat)
    requires r.ListsVars() && i < |r.pkg.vars|
    ensures r.ValueEntry(r.pkg.vars[i]) in SortStrings(r.SummaryEntries())
  {
    var a := r.ValueBullets(r.pkg.consts);
    var b := r.ValueBullets(r.pkg.vars);
    var c := if r.ListsFuncs() then r.FuncBullets(r.pkg.funcs) else [];
    var d := r.TypeBullets(r.pkg.types);
    ValueBulletAt(r, r.pkg.vars, i);
    InSecond(a, b, c, d, i);
    InSorted(a + b + c + d, b[i]);
  }

  lemma FuncListed(r: Renderer, i: nat)
    requires r.ListsFuncs() && i < |r.pkg.funcs|
    ensures r.FuncEntry(r.pkg.funcs[i]) in SortStrings(r.SummaryEntries())
  {
    var a := r.ValueBullets(r.pkg.consts);
    var b := if r.ListsVars() then r.ValueBullets(r.pkg.vars) else [];
    var c := r.FuncBullets(r.pkg.funcs);
    var d := r.TypeBullets(r.pkg.types);
    FuncBulletAt(r, r.pkg.funcs, i);
    InThird(a, b, c, d, i);
    InSorted(a + b + c + d, c[i]);
  }

  lemma TypeListed(r: Renderer, i: nat)
    requires i < |r.pkg.types|
    ensures r.TypeEntry(r.pkg.types[i]) in SortStrings(r.SummaryEntries())
  {
    var a := r.ValueBullets(r.pkg.consts);
    var b := if r.ListsVars() then r.ValueBullets(r.pkg.vars) else [];
    var c := if r.ListsFuncs() then r.FuncBullets(r.pkg.funcs) else [];
    var d := r.TypeBullets(r.pkg.types);
    TypeBulletAt(r, r.pkg.types, i);
    InFourth(a, b, c, d, i);
    InSorted(a + b + c + d, d[i]);
  }

  lemma InSecond<T>(a: seq<T>, b: seq<T>, c: seq<T>, d: seq<T>, i: nat)
    requires i < |b|
    ensures b[i] in a + b + c + d
  {
    assert (a + b + c + d)[|a| + i] == b[i];
  }

  lemma InThird<T>(a: seq<T>, b: seq<T>, c: seq<T>, d: seq<T>, i: nat)
    requires i < |c|
    ensures c[i] in a + b + c + d
  {
    assert (a + b + c + d)[|a| + |b| + i] == c[i];
  }

  lemma InFourth<T>(a: seq<T>, b: seq<T>, c: seq<T>, d: seq<T>, i: nat)
    requires i < |d|
    ensures d[i] in a + b + c + d
  {
    assert (a + b + c + d)[|a| + |b| + |c| + i] == d[i];
  }

  /** The entry of a group of values is one line when its names are. */
  lemma ValueEntryOneLine(r: Renderer, v: Value)
    requires forall k :: 0 <= k < |v.names| ==> '\n' !in v.names[k]
    ensures '\n' !in r.ValueEntry(v)
  {
    ValueTitleOneLine(v.names);
    SummaryOneLine(v.doc);
    BulletLineOneLine(ValueTitle(v.names), SummaryText(v.doc));
  }

  /** Each entry of a values loop is one line. */
  lemma ValueBulletsOneLine(r: Renderer, vs: seq<Value>)
    requires NamesOneLine(vs)
    ensures forall i :: 0 <= i < |vs| ==> '\n' !in r.ValueBullets(vs)[i]
  {
    forall i | 0 <= i < |vs| ensures '\n' !in r.ValueBullets(vs)[i] {
      ValueBulletAt(r, vs, i);
      ValueEntryOneLine(r, vs[i]);
    }
  }

  /** Each entry of the functions loop is one line. */
  lemma FuncBulletsOneLine(r: Renderer, fs: seq<Func>)
    requires forall i :: 0 <= i < |fs| ==> '\n' !in fs[i].signature
    ensures forall i :: 0 <= i < |fs| ==> '\n' !in r.FuncBullets(fs)[i]
  {
    forall i | 0 <= i < |fs| ensures '\n' !in r.FuncBullets(fs)[i] {
      FuncBulletAt(r, fs, i);
      SummaryOneLine(fs[i].doc);
      BulletLineOneLine(fs[i].signature, SummaryText(fs[i].doc));
    }
  }

  /** Each entry of the types loop is one line. */
  lemma TypeBulletsOneLine(r: Renderer, ts: seq<TypeDoc>)
    requires forall i :: 0 <= i < |ts| ==> '\n' !in ts[i].name
    ensures forall i :: 0 <= i < |ts| ==> '\n' !in r.TypeBullets(ts)[i]
  {
    forall i | 0 <= i < |ts| ensures '\n' !in r.TypeBullets(ts)[i] {
      TypeBulletAt(r, ts, i);
      TypeEntryOneLine(r, ts[i]);
    }
  }

  /** The entry of a type is one line when its name is. */
  lemma TypeEntryOneLine(r: Renderer, t: TypeDoc)
    requires '\n' !in t.name
    ensures '\n' !in r.TypeEntry(t)
  {
    var title := "type " + t.name;
    assert title == "type " + t.name;
    assert forall k :: 0 <= k < |title| ==> title[k] != '\n' by {
      forall k | 0 <= k < |title| ensures title[k] != '\n' {
        if k >= 5 {
          assert title[k] == t.name[k - 5];
        }
      }
    }
    SummaryOneLine(t.doc);
    BulletLineOneLine(title, SummaryText(t.doc));
  }

  /** Each entry of the summary table is one line. */
  lemma EntriesOneLine(r: Renderer)
    requires SummaryPartsOneLine(r.pkg)
    ensures forall i :: 0 <= i < |r.SummaryEntries()| ==> '\n' !in r.SummaryEntries()[i]
  {
    var p := r.pkg;
    var consts := r.ValueBullets(p.consts);
    var vars := if r.ListsVars() then r.ValueBullets(p.vars) else [];
    var funcs := if r.ListsFuncs() then r.FuncBullets(p.funcs) else [];
    var types := r.TypeBullets(p.types);
    ValueBulletsOneLine(r, p.consts);
    ValueBulletsOneLine(r, p.vars);
    FuncBulletsOneLine(r, p.funcs);
    TypeBulletsOneLine(r, p.types);
    LinesConcat(consts, vars);
    LinesConcat(consts + vars, funcs);
    LinesConcat(consts + vars + funcs, types);
    assert r.SummaryEntries() == consts + vars + funcs + types;
  }

  /** Lines joined one after the other are still lines. */
  lemma LinesConcat(a: seq<string>, b: seq<string>)
    requires forall i :: 0 <= i < |a| ==> '\n' !in a[i]
    requires forall i :: 0 <= i < |b| ==> '\n' !in b[i]
    ensures forall i :: 0 <= i < |a + b| ==> '\n' !in (a + b)[i]
  {
    forall i | |a| <= i < |a + b| ensures '\n' !in (a + b)[i] {
      assert (a + b)[i] == b[i - |a|];
    }
  }

  /** Sorting keeps lines lines. */
  lemma SortedLines(entries: seq<string>)
    requires forall i :: 0 <= i < |entries| ==> '\n' !in entries[i]
    ensures forall i :: 0 <= i < |SortStrings(entries)| ==> '\n' !in SortStrings(entries)[i]
  {
    var sorted := SortStrings(entries);
    forall i | 0 <= i < |sorted| ensures '\n' !in sorted[i] {
      assert sorted[i] in multiset(entries);
      var j :| 0 <= j < |entries| && entries[j] == sorted[i];
    }
  }

  /** The summary table is the entries in Go's string order, one per line,
      then an empty line; a package with no entries has no table. */
  lemma SummaryTableLines(r: Renderer)
    requires SummaryPartsOneLine(r.pkg)
    ensures r.SummaryTableText() == "" <==> r.SummaryEntries() == []
    ensures r.SummaryEntries() != [] ==>
      Split(r.SummaryTableText(), '\n') == SortStrings(r.SummaryEntries()) + ["", ""]
  {
    var entries := r.SummaryEntries();
    if entries != [] {
      EntriesOneLine(r);
      SortedLines(entries);
      PrintedLines(SortStrings(entries));
    }
  }

  /** renderPackage starts the page of a package that is not a command
      with its heading: the name and, when the import path is known, the
      import line. */
  lemma PackageHeading(r: Renderer)
    requires r.pkg.name != "main"
    ensures r.pkg.importPath == "" ==>
      HasPrefix(r.PackagePageText(), "# package " + r.pkg.name + "\n\n" + r.DocBlockText(r.pkg.doc))
    ensures r.pkg.importPath != "" ==>
      HasPrefix(r.PackagePageText(),
        "# package " + r.pkg.name + "\n\n" + "`import \"" + r.pkg.importPath + "\"`\n\n" + r.DocBlockText(r.pkg.doc))
  {
    var doc := r.DocBlockText(r.pkg.doc);
    var table := r.SummaryTableText();
    var sections := if r.options.all then r.AllSectionsText() else "";
    assert r.PackagePageText() == r.Header() + doc + table + sections;
    Assoc(r.Header() + doc, table, sections);
    ConcatHasPrefix(r.Header() + doc, table + sections);
  }

  /** A command's page has no heading: it starts with the doc comment. */
  lemma CommandPageStart(r: Renderer)
    requires r.pkg.name == "main"
    ensures HasPrefix(r.PackagePageText(), r.DocBlockText(r.pkg.doc) + r.SummaryTableText())
  {
    var head := r.DocBlockText(r.pkg.doc) + r.SummaryTableText();
    var rest := if r.CommandView() then r.CommandSectionsText() else if r.options.all then r.AllSectionsText() else "";
    var page := r.Header() + r.DocBlockText(r.pkg.doc) + r.SummaryTableText();
    assert r.PackagePageText() == page + rest;
    Assoc(r.Header(), r.DocBlockText(r.pkg.doc), r.SummaryTableText());
    assert r.Header() == "";
    assert r.Header() + head == head;
    ConcatHasPrefix(head, rest);
  }

  /** Only -all, or the -include flags of a command shown as a command, put
      sections after the summary table. */
  lemma PageEndsAtSummary(r: Renderer)
    requires !r.options.all && !r.options.includeMainVars && !r.options.includeMainFuncs
    ensures r.PackagePageText() == r.Header() + r.DocBlockText(r.pkg.doc) + r.SummaryTableText()
  {
    if r.CommandView() {
      assert r.CommandSectionsText() == "";
    }
  }

  /** A doc comment is written as the comment trimmed of white space and a
      blank line, and a blank comment not at all. */
  lemma DocBlockIsTrimmedComment(r: Renderer, text: string)
    ensures r.DocBlockText(text) == (if AllSpace(text) then "" else TrimSpace(text) + "\n\n")
  {
    DocMarkdownIsTrimmed(text);
  }
}
