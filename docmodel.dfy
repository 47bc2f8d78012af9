/** The documentation of one Go package as the renderer sees it: the parts of
    a go/doc Package it reads, with every piece of Go source already printed
    by go/format. A piece that go/format could not print, or that is
    absent, is "". */
module DocModel {
  import opened Results

  /** A group of constants or variables declared together. `decl` is the
      printed declaration. */
  datatype Value = Value(names: seq<string>, doc: string, decl: string)

  /** A function or method: `decl` is the printed declaration with its body,
      `signature` the `func (recv) Name(params) results` line. */
  datatype Func = Func(name: string, doc: string, decl: string, signature: string)

  /** A field of a struct type: its names (none when embedded), the text of
      its doc comment and the printed field. */
  datatype Field = Field(names: seq<string>, doc: string, code: string)

  /** A type with the values, constructors and methods go/doc groups under
      it. `fields` is None when its declaration does not declare it as a
      struct type with a field list. */
  datatype TypeDoc = TypeDoc(
    name: string,
    doc: string,
    decl: string,
    consts: seq<Value>,
    vars: seq<Value>,
    funcs: seq<Func>,
    methods: seq<Func>,
    fields: Option<seq<Field>>)

  datatype Package = Package(
    name: string,
    importPath: string,
    doc: string,
    consts: seq<Value>,
    vars: seq<Value>,
    funcs: seq<Func>,
    types: seq<TypeDoc>)
}
