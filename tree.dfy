/** The tree mode of run.go: the load patterns for a root, the de-duplicated
    and sorted package list, and where each package's documentation goes.
    The package loader and the path functions of the operating system are
    parameters of the model. */
module Tree {
  import opened Text
  import opened Order
  import opened Results
  import opened Failures

  /** buildPatterns: the root itself and, unless it already has a "...",
      the recursive pattern below it. */
  function BuildPatterns(root: string): (patterns: seq<string>)
    ensures 1 <= |patterns| <= 2
    ensures patterns[0] == if TrimSpace(root) == "" then "." else TrimSpace(root)
    ensures |patterns| == 2 <==> !Contains(patterns[0], "...")
    ensures |patterns| == 2 ==> Contains(patterns[1], "...") && HasPrefix(patterns[1], patterns[0])
  {
    var root := if TrimSpace(root) == "" then "." else TrimSpace(root);
    if Contains(root, "...") then [root]
    else
      RecursiveBelow(root);
      [root, Recursive(root)]
  }

  /** The pattern for everything below `root`. */
  function Recursive(root: string): string
  {
    if root == "." then "./..."
    else if HasSuffix(root, "/") then root + "..."
    else root + "/..."
  }

  /** The recursive pattern extends the root and has a "...". */
  lemma RecursiveBelow(root: string)
    ensures Contains(Recursive(root), "...") && HasPrefix(Recursive(root), root)
  {
    var tail := if root == "." || !HasSuffix(root, "/") then "/..." else "...";
    assert Recursive(root) == root + tail;
    ConcatHasPrefix(root, tail);
    ConcatOccursAtEnd(root + tail[..|tail| - 3], "...");
    Assoc(root, tail[..|tail| - 3], "...");
    assert tail[..|tail| - 3] + "..." == tail;
  }

  /** The recursive pattern asks for nothing more: given as a root, it is
      loaded on its own. */
  lemma RecursivePatternIsFixed(root: string)
    requires |BuildPatterns(root)| == 2
    ensures BuildPatterns(BuildPatterns(root)[1]) == [BuildPatterns(root)[1]]
  {
    var p := BuildPatterns(root);
    var rec := p[1];
    var r := p[0];
    assert r != [] && !IsSpace(r[0]) by {
      if TrimSpace(root) == "" {
        assert r == ".";
      }
    }
    assert rec[0] == r[0];
    assert rec[|rec| - 1] == '.';
    TrimSpaceOfTrimmed(rec);
  }

  /** A loaded package: its import path, name, directory (packageDir) and
      the load errors reported for it. */
  datatype LoadedPackage = LoadedPackage(pkgPath: string, name: string, dir: string, errors: seq<string>)

  /** The key loadPackageTree de-duplicates on. */
  function TreeKey(p: LoadedPackage): string
  {
    if p.pkgPath != "" then p.pkgPath else p.dir
  }

  /** The `unique` map after the packages `pkgs`: a later package replaces
      an earlier one with the same key. */
  function Unique(pkgs: seq<LoadedPackage>): map<string, LoadedPackage>
  {
    if pkgs == [] then map[]
    else Unique(pkgs[..|pkgs| - 1])[TreeKey(pkgs[|pkgs| - 1]) := pkgs[|pkgs| - 1]]
  }

  /** Every key of the input is kept, and nothing else. */
  lemma {:induction false} UniqueKeys(pkgs: seq<LoadedPackage>)
    ensures forall k :: k in Unique(pkgs) <==> exists i :: 0 <= i < |pkgs| && TreeKey(pkgs[i]) == k
    ensures forall k :: k in Unique(pkgs) ==> TreeKey(Unique(pkgs)[k]) == k
  {
    if pkgs != [] {
      var init := pkgs[..|pkgs| - 1];
      UniqueKeys(init);
      var m := Unique(pkgs);
      var last := pkgs[|pkgs| - 1];
      assert m == Unique(init)[TreeKey(last) := last];
      forall k | k in m
        ensures exists i :: 0 <= i < |pkgs| && TreeKey(pkgs[i]) == k
      {
        if k != TreeKey(last) {
          assert k in Unique(init);
          var i :| 0 <= i < |init| && TreeKey(init[i]) == k;
          assert TreeKey(pkgs[i]) == k;
        }
      }
      forall k | exists i :: 0 <= i < |pkgs| && TreeKey(pkgs[i]) == k
        ensures k in m
      {
        var i :| 0 <= i < |pkgs| && TreeKey(pkgs[i]) == k;
        if i < |init| {
          assert TreeKey(init[i]) == k;
          assert k in Unique(init);
        }
      }
    }
  }

  /** Each key is kept with the last package that has it. */
  lemma {:induction false} UniqueLastWins(pkgs: seq<LoadedPackage>)
    ensures forall i :: 0 <= i < |pkgs| && (forall j :: i < j < |pkgs| ==> TreeKey(pkgs[j]) != TreeKey(pkgs[i])) ==>
      TreeKey(pkgs[i]) in Unique(pkgs) && Unique(pkgs)[TreeKey(pkgs[i])] == pkgs[i]
  {
    if pkgs != [] {
      var init := pkgs[..|pkgs| - 1];
      UniqueLastWins(init);
      forall i | 0 <= i < |pkgs| && (forall j :: i < j < |pkgs| ==> TreeKey(pkgs[j]) != TreeKey(pkgs[i]))
        ensures TreeKey(pkgs[i]) in Unique(pkgs) && Unique(pkgs)[TreeKey(pkgs[i])] == pkgs[i]
      {
        if i < |init| {
          assert init[i] == pkgs[i];
          assert forall j :: i < j < |init| ==> init[j] == pkgs[j];
        }
      }
    }
  }

  /** The sort key of loadPackageTree. */
  function ByPkgPath(p: LoadedPackage): string
  {
    p.pkgPath
  }

  /** The first load error in the list, if any. */
  function FirstError(pkgs: seq<LoadedPackage>): Option<string>
  {
    if pkgs == [] then None
    else if pkgs[0].errors != [] then Some(pkgs[0].errors[0])
    else FirstError(pkgs[1..])
  }

  /** The de-duplicate-then-sort step of loadPackageTree. The order in which
      the map is read is not fixed, and the model leaves it open too. */
  method UniquePackages(pkgs: seq<LoadedPackage>) returns (r: Result<seq<LoadedPackage>, Failure>)
    ensures FirstError(pkgs).Some? ==> r == Err(LoadFailed(FirstError(pkgs).value))
    ensures FirstError(pkgs).None? ==> r.Ok?
    ensures r.Ok? ==> SortedBy(r.value, ByPkgPath)
    ensures r.Ok? ==> |r.value| == |Unique(pkgs)|
    ensures r.Ok? ==> forall p :: p in r.value <==> p in Unique(pkgs).Values
  {
    var unique: map<string, LoadedPackage> := map[];
    var i := 0;
    while i < |pkgs|
      invariant 0 <= i <= |pkgs|
      invariant FirstError(pkgs[i..]) == FirstError(pkgs)
      invariant unique == Unique(pkgs[..i])
    {
      var pkg := pkgs[i];
      assert pkgs[i..][1..] == pkgs[i + 1..];
      if |pkg.errors| > 0 {
        return Err(LoadFailed(pkg.errors[0]));
      }
      var key := pkg.pkgPath;
      if key == "" {
        key := pkg.dir;
      }
      assert pkgs[..i + 1][..i] == pkgs[..i];
      unique := unique[key := pkg];
      i := i + 1;
    }
    assert pkgs[..|pkgs|] == pkgs;
    UniqueKeys(pkgs);
    var result: seq<LoadedPackage> := [];
    var remaining := unique.Keys;
    while remaining != {}
      invariant remaining <= unique.Keys
      invariant |result| + |remaining| == |unique.Keys|
      invariant forall p :: p in result ==> p in unique.Values && TreeKey(p) !in remaining
      invariant forall k :: k in unique && k !in remaining ==> unique[k] in result
      decreases |remaining|
    {
      var key :| key in remaining;
      result := result + [unique[key]];
      remaining := remaining - {key};
    }
    var sorted := SortBy(result, ByPkgPath);
    assert forall p :: p in sorted <==> p in result by {
      assert forall p :: p in sorted <==> p in multiset(sorted);
      assert forall p :: p in result <==> p in multiset(result);
    }
    return Ok(sorted);
  }

  /** deriveRelativeDir, with filepath.Rel and filepath.Base as parameters
      (`rel` gives None where filepath.Rel fails). Any relative path
      starting with "..", even a directory named "..foo", is refused. */
  function DeriveRelativeDir(pkgPath: string, name: string, baseDir: string, pkgDir: string,
                             rel: (string, string) -> Option<string>, base: string -> string): (r: string)
    ensures UsableRel(baseDir, pkgDir, rel) ==> r == rel(baseDir, pkgDir).value
    ensures HasPrefix(r, "..") ==> r == pkgPath || r == base(pkgDir) || r == name
  {
    if UsableRel(baseDir, pkgDir, rel) then
      var rel := rel(baseDir, pkgDir).value;
      if rel == "." then "." else rel
    else if pkgPath != "" then pkgPath
    else if pkgDir != "" then base(pkgDir)
    else name
  }

  /** The relative path filepath.Rel gives is used: it exists, is not empty
      and does not start with "..". */
  predicate UsableRel(baseDir: string, pkgDir: string, rel: (string, string) -> Option<string>)
  {
    baseDir != "" && pkgDir != "" && rel(baseDir, pkgDir).Some? && rel(baseDir, pkgDir).value != ""
    && !HasPrefix(rel(baseDir, pkgDir).value, "..")
  }

  /** Without a usable relative path the fallbacks come in order: the import
      path, else the last element of the directory, else the package name. */
  lemma DeriveRelativeDirFallbacks(pkgPath: string, name: string, baseDir: string, pkgDir: string,
                                   rel: (string, string) -> Option<string>, base: string -> string)
    requires !UsableRel(baseDir, pkgDir, rel)
    ensures pkgPath != "" ==> DeriveRelativeDir(pkgPath, name, baseDir, pkgDir, rel, base) == pkgPath
    ensures pkgPath == "" && pkgDir != "" ==> DeriveRelativeDir(pkgPath, name, baseDir, pkgDir, rel, base) == base(pkgDir)
    ensures pkgPath == "" && pkgDir == "" ==> DeriveRelativeDir(pkgPath, name, baseDir, pkgDir, rel, base) == name
  {
  }

  /** A directory named "..foo" inside the base is not used as the relative
      directory: the import path is used instead. */
  lemma DotDotPrefixRefused(pkgPath: string, name: string, rel: (string, string) -> Option<string>, base: string -> string)
    requires rel("/src", "/src/..foo") == Some("..foo")
    requires pkgPath != ""
    ensures DeriveRelativeDir(pkgPath, name, "/src", "/src/..foo", rel, base) == pkgPath
  {
    assert HasPrefix("..foo", "..") by {
      assert "..foo"[..2] == "..";
    }
  }

  /** sameDir, with filepath.Clean as a parameter. */
  function SameDir(a: string, b: string, clean: string -> string): (r: bool)
  {
    if a == "" || b == "" then false else clean(a) == clean(b)
  }

  /** sameDir is an equivalence on non-empty paths and never holds for an
      empty one. */
  lemma SameDirEquivalence(a: string, b: string, c: string, clean: string -> string)
    ensures SameDir(a, b, clean) == SameDir(b, a, clean)
    ensures SameDir(a, a, clean) <==> a != ""
    ensures SameDir(a, b, clean) && SameDir(b, c, clean) ==> SameDir(a, c, clean)
    ensures a == "" || b == "" ==> !SameDir(a, b, clean)
  {
  }
}
