/** How `execute` turns positional arguments into documentation: the choice
    between a package tree and a single target, the resolution of a package
    expression (with the standard-library suffix fallback), and the loop that
    tries the candidate guesses in order until one is documented. Loading
    packages and rendering them are parameters of the model. */
module Resolve {
  import opened Text
  import opened Order
  import opened Results
  import opened Failures
  import opened Options
  import opened Candidates

  /** A path of the standard library that the argument names: the path
      itself, or a path ending in "/" + arg. */
  predicate NamesPath(path: string, arg: string)
  {
    path == arg || HasSuffix(path, "/" + arg)
  }

  /** The `best` accumulator of matchStdSuffix after the paths `paths`. */
  function BestMatch(paths: seq<string>, arg: string): string
  {
    if paths == [] then ""
    else
      var best := BestMatch(paths[..|paths| - 1], arg);
      var path := paths[|paths| - 1];
      if NamesPath(path, arg) && (best == "" || Less(path, best)) then path else best
  }

  /** What matchStdSuffix returns: nothing for an empty argument or when the
      standard-library list could not be loaded, else the best match. */
  function StdSuffix(arg: string, std: seq<string>, stdErr: bool): string
  {
    if arg == "" || stdErr then "" else BestMatch(std, arg)
  }

  /** For a non-empty argument the best match is "" exactly when no path
      matches, and otherwise a matching path no greater than any other. */
  lemma {:induction false} BestMatchIsSmallest(paths: seq<string>, arg: string)
    requires arg != ""
    ensures var best := BestMatch(paths, arg);
      && (best == "" <==> forall p :: p in paths ==> !NamesPath(p, arg))
      && (best != "" ==> best in paths && NamesPath(best, arg))
      && (best != "" ==> forall p :: p in paths && NamesPath(p, arg) ==> LessEq(best, p))
  {
    if paths != [] {
      var init := paths[..|paths| - 1];
      var path := paths[|paths| - 1];
      BestMatchIsSmallest(init, arg);
      assert paths == init + [path];
      var best := BestMatch(init, arg);
      if NamesPath(path, arg) {
        assert path != "";
        if best != "" && !Less(path, best) {
          LessTotal(path, best);
        }
        if best != "" && Less(path, best) {
          forall p | p in init && NamesPath(p, arg)
            ensures LessEq(path, p)
          {
            LessEqTransitive(path, best, p);
          }
        }
      }
    }
  }

  /** matchStdSuffix, with the sorted standard-library path list and the
      error of loading it passed in. */
  method MatchStdSuffix(arg: string, std: seq<string>, stdErr: bool) returns (best: string)
    ensures best == StdSuffix(arg, std, stdErr)
  {
    if arg == "" {
      return "";
    }
    if stdErr {
      return "";
    }
    best := "";
    var i := 0;
    while i < |std|
      invariant 0 <= i <= |std|
      invariant best == BestMatch(std[..i], arg)
    {
      var path := std[i];
      assert std[..i + 1][..i] == std[..i];
      if path == arg || HasSuffix(path, "/" + arg) {
        if best == "" || Less(path, best) {
          best := path;
        }
      }
      i := i + 1;
    }
    assert std[..|std|] == std;
  }

  /** resolvePackage: the expression (or "." for an empty one) is loaded;
      failing that, the standard-library path it names; failing that, an
      error naming the expression. */
  function Resolve<P>(expr: string, load: string -> Result<P, Failure>, std: seq<string>, stdErr: bool): Result<P, Failure>
  {
    var candidate := if expr == "" then "." else expr;
    if load(candidate).Ok? then load(candidate)
    else
      var found := StdSuffix(expr, std, stdErr);
      if found != "" then load(found)
      else Err(Unresolved(expr))
  }

  /** resolvePackage, trying the one-element list of expressions in turn. */
  method ResolvePackage<P>(expr: string, load: string -> Result<P, Failure>, std: seq<string>, stdErr: bool)
    returns (r: Result<P, Failure>)
    ensures r == Resolve(expr, load, std, stdErr)
  {
    var try := if expr == "" then ["."] else [expr];
    var i := 0;
    while i < |try|
      invariant 0 <= i <= |try|
      invariant i == 1 ==> !load(try[0]).Ok?
    {
      var candidate := try[i];
      if candidate != "" {
        var pkg := load(candidate);
        if pkg.Ok? {
          return pkg;
        }
      }
      i := i + 1;
    }
    var found := MatchStdSuffix(expr, std, stdErr);
    if found != "" {
      return load(found);
    }
    return Err(Unresolved(expr));
  }

  /** A package expression that loads directly is resolved to that package;
      one that neither loads nor names a standard-library path is reported
      as unresolved, with the expression in the message. */
  lemma ResolveOutcomes<P>(expr: string, load: string -> Result<P, Failure>, std: seq<string>, stdErr: bool)
    ensures load(if expr == "" then "." else expr).Ok? ==>
      Resolve(expr, load, std, stdErr) == load(if expr == "" then "." else expr)
    ensures Resolve(expr, load, std, stdErr) == Err(Unresolved(expr)) <==>
      !load(if expr == "" then "." else expr).Ok?
      && (StdSuffix(expr, std, stdErr) == "" || load(StdSuffix(expr, std, stdErr)) == Err(Unresolved(expr)))
    ensures !load(if expr == "" then "." else expr).Ok? && StdSuffix(expr, std, stdErr) != "" ==>
      Resolve(expr, load, std, stdErr) == load(StdSuffix(expr, std, stdErr))
  {
  }

  /** What documentTarget reports for one guess: the Markdown, and whether
      the symbol was found. */
  datatype Documented = Documented(markdown: string, handled: bool)

  /** The candidate loop of `execute`, from the guess list `cands` on, with
      `lastErr` the error of the last guess that fell through. */
  function TryCandidates<P>(cands: seq<Invocation>, lastErr: Option<Failure>,
                            resolve: string -> Result<P, Failure>,
                            document: (P, string, string) -> Result<Documented, Failure>,
                            pkgPath: P -> string): Result<string, Failure>
    decreases |cands|
  {
    if cands == [] then
      if lastErr.Some? then Err(lastErr.value) else Err(Usage(NotLocated))
    else
      var cand := cands[0];
      match resolve(cand.pkgExpr)
      case Err(e) => TryCandidates(cands[1..], Some(e), resolve, document, pkgPath)
      case Ok(pkg) =>
        match document(pkg, cand.symbol, cand.methodName)
        case Err(e) => Err(e)
        case Ok(d) =>
          if !d.handled then
            TryCandidates(cands[1..], Some(NoMatchingSymbol(DisplaySymbol(cand.symbol, cand.methodName), pkgPath(pkg))),
                          resolve, document, pkgPath)
          else Ok(d.markdown)
  }

  /** The guess `c` falls through to the next one: its package does not
      resolve, or the package has no such symbol. */
  predicate FallsThrough<P>(c: Invocation, resolve: string -> Result<P, Failure>,
                            document: (P, string, string) -> Result<Documented, Failure>)
  {
    resolve(c.pkgExpr).Err?
    || (document(resolve(c.pkgExpr).value, c.symbol, c.methodName).Ok?
        && !document(resolve(c.pkgExpr).value, c.symbol, c.methodName).value.handled)
  }

  /** First success wins: when every guess before index i falls through and
      guess i is documented, its Markdown is the result. */
  lemma {:induction false} FirstSuccessWins<P>(cands: seq<Invocation>, lastErr: Option<Failure>, i: nat,
                                              resolve: string -> Result<P, Failure>,
                                              document: (P, string, string) -> Result<Documented, Failure>,
                                              pkgPath: P -> string)
    requires i < |cands|
    requires forall j :: 0 <= j < i ==> FallsThrough(cands[j], resolve, document)
    requires resolve(cands[i].pkgExpr).Ok?
    requires document(resolve(cands[i].pkgExpr).value, cands[i].symbol, cands[i].methodName).Ok?
    requires document(resolve(cands[i].pkgExpr).value, cands[i].symbol, cands[i].methodName).value.handled
    ensures TryCandidates(cands, lastErr, resolve, document, pkgPath) ==
      Ok(document(resolve(cands[i].pkgExpr).value, cands[i].symbol, cands[i].methodName).value.markdown)
    decreases i
  {
    if i > 0 {
      var c := cands[0];
      assert FallsThrough(cands[0], resolve, document);
      var next := if resolve(c.pkgExpr).Err? then Some(resolve(c.pkgExpr).error)
        else Some(NoMatchingSymbol(DisplaySymbol(c.symbol, c.methodName), pkgPath(resolve(c.pkgExpr).value)));
      assert TryCandidates(cands, lastErr, resolve, document, pkgPath)
          == TryCandidates(cands[1..], next, resolve, document, pkgPath);
      FirstSuccessWins(cands[1..], next, i - 1, resolve, document, pkgPath);
    }
  }

  /** When every guess falls through, the error of the last one is returned;
      with no guesses at all, "unable to locate documentation target". */
  lemma {:induction false} AllFallThrough<P>(cands: seq<Invocation>, lastErr: Option<Failure>,
                                            resolve: string -> Result<P, Failure>,
                                            document: (P, string, string) -> Result<Documented, Failure>,
                                            pkgPath: P -> string)
    requires forall j :: 0 <= j < |cands| ==> FallsThrough(cands[j], resolve, document)
    ensures cands == [] ==> TryCandidates(cands, lastErr, resolve, document, pkgPath)
                            == if lastErr.Some? then Err(lastErr.value) else Err(Usage(NotLocated))
    ensures cands != [] ==>
      var c := cands[|cands| - 1];
      TryCandidates(cands, lastErr, resolve, document, pkgPath)
        == if resolve(c.pkgExpr).Err? then Err(resolve(c.pkgExpr).error)
           else Err(NoMatchingSymbol(DisplaySymbol(c.symbol, c.methodName), pkgPath(resolve(c.pkgExpr).value)))
    decreases |cands|
  {
    if cands != [] {
      var c := cands[0];
      assert FallsThrough(cands[0], resolve, document);
      var next := if resolve(c.pkgExpr).Err? then Some(resolve(c.pkgExpr).error)
        else Some(NoMatchingSymbol(DisplaySymbol(c.symbol, c.methodName), pkgPath(resolve(c.pkgExpr).value)));
      assert TryCandidates(cands, lastErr, resolve, document, pkgPath)
          == TryCandidates(cands[1..], next, resolve, document, pkgPath);
      AllFallThrough(cands[1..], next, resolve, document, pkgPath);
      if |cands| > 1 {
        assert cands[1..][|cands[1..]| - 1] == cands[|cands| - 1];
      }
    }
  }

  /** The candidate loop of `execute` (run.go): the first guess that resolves
      and is documented gives the Markdown to write; a rendering error stops
      the loop; otherwise the last error is reported. */
  method ExecuteCandidates<P>(cands: seq<Invocation>,
                              resolve: string -> Result<P, Failure>,
                              document: (P, string, string) -> Result<Documented, Failure>,
                              pkgPath: P -> string)
    returns (r: Result<string, Failure>)
    ensures r == TryCandidates(cands, None, resolve, document, pkgPath)
  {
    var lastErr: Option<Failure> := None;
    var i := 0;
    while i < |cands|
      invariant 0 <= i <= |cands|
      invariant TryCandidates(cands[i..], lastErr, resolve, document, pkgPath)
             == TryCandidates(cands, None, resolve, document, pkgPath)
    {
      var cand := cands[i];
      assert cands[i..][1..] == cands[i + 1..];
      var pkgInfo := resolve(cand.pkgExpr);
      if pkgInfo.Err? {
        lastErr := Some(pkgInfo.error);
        i := i + 1;
        continue;
      }
      var result := document(pkgInfo.value, cand.symbol, cand.methodName);
      if result.Err? {
        return Err(result.error);
      }
      if !result.value.handled {
        lastErr := Some(NoMatchingSymbol(DisplaySymbol(cand.symbol, cand.methodName), pkgPath(pkgInfo.value)));
        i := i + 1;
        continue;
      }
      return Ok(result.value.markdown);
    }
    if lastErr.Some? {
      return Err(lastErr.value);
    }
    return Err(Usage(NotLocated));
  }

  /** What `execute` goes on to do once the options are checked. */
  datatype Action =
    /** documentPackageTree on this root */
    | DocumentTree(root: string)
    /** the candidate loop over these guesses */
    | DocumentCandidates(cands: seq<Invocation>)

  /** The tree root: the one positional argument, or ".". */
  function TreeRoot(positionals: seq<string>): string
  {
    if |positionals| == 1 then positionals[0] else "."
  }

  /** The option checks and mode choice at the top of `execute`;
      `wantsDirectory` is wantsDirectoryOutput(opts.outputPath), which looks
      at the file system. */
  method Dispatch(opts: Options, positionals: seq<string>, wantsDirectory: bool)
    returns (r: Result<Action, Failure>)
    ensures opts.inplace && opts.outputPath != "" ==> r == Err(Usage(OutputWithInPlace))
    ensures opts.inplace && opts.outputPath == "" ==>
      r == if |positionals| > 1 then Err(Usage(InPlaceOneArgument)) else Ok(DocumentTree(TreeRoot(positionals)))
    ensures !opts.inplace && wantsDirectory ==>
      r == if |positionals| > 1 then Err(Usage(DirectoryOneArgument)) else Ok(DocumentTree(TreeRoot(positionals)))
    ensures !opts.inplace && !wantsDirectory && opts.all && |positionals| > 1 ==> r == Err(Usage(AllOneArgument))
    ensures !opts.inplace && !wantsDirectory && !(opts.all && |positionals| > 1) ==>
      (r.Err? <==> |positionals| > 2)
    ensures !opts.inplace && !wantsDirectory && !(opts.all && |positionals| > 1) && r.Err? ==>
      r.error == Usage(TooManyPositionals)
    ensures !opts.inplace && !wantsDirectory && !(opts.all && |positionals| > 1) && r.Ok? ==>
      r.value == DocumentCandidates(ArgCandidates(positionals).value) && r.value.cands != []
  {
    if opts.inplace && opts.outputPath != "" {
      return Err(Usage(OutputWithInPlace));
    }
    if opts.inplace {
      if |positionals| > 1 {
        return Err(Usage(InPlaceOneArgument));
      }
      var root := ".";
      if |positionals| == 1 {
        root := positionals[0];
      }
      return Ok(DocumentTree(root));
    }
    if wantsDirectory {
      if |positionals| > 1 {
        return Err(Usage(DirectoryOneArgument));
      }
      var root := ".";
      if |positionals| == 1 {
        root := positionals[0];
      }
      return Ok(DocumentTree(root));
    }
    if opts.all && |positionals| > 1 {
      return Err(Usage(AllOneArgument));
    }
    var candidates := BuildCandidates(positionals);
    if candidates.Err? {
      return Err(candidates.error);
    }
    if |positionals| == 1 {
      ProposalsLeadToCandidates(positionals[0]);
    }
    if |candidates.value| == 0 {
      return Err(Usage(NoArguments));
    }
    return Ok(DocumentCandidates(candidates.value));
  }

  /** singleArgCandidates always proposes something, so the "no arguments
      provided" error of `execute` cannot happen. */
  lemma ProposalsLeadToCandidates(arg: string)
    ensures AddAll({}, Proposals(arg)) != []
  {
    var ps := Proposals(arg);
    assert ps != [];
    assert Key(ps[0]) !in {};
  }
}
