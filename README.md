# go-docmd core, modelled in Dafny

go-docmd prints the documentation of a Go package, a symbol or a method as
Markdown, much like `go doc`. It can also write one README per package of a
package tree, with a table of contents in the root README. This project
models the two files that hold its logic and proves what they promise:

- `run.go`, argument handling:
  - the rewriting of old single-dash long flags;
  - the ordered, de-duplicated guesses `(pkgExpr, symbol, method)` made from the positional arguments;
  - the first-success-wins loop over those guesses;
  - the standard-library suffix match;
  - the tree patterns, the de-duplication and sorting of the loaded packages, and the relative directory of a package;
  - the table of contents, and the plan of README writes for `-o dir` and `-inplace`.
- `render.go`, the Markdown renderer:
  - every `render*` method, writing into an append-only buffer;
  - the text helpers: dedent, leading white space, doc block, first-sentence summary, bullet lines;
  - name matching with and without case sensitivity.

The modules follow the program:

| module | file | holds |
|---|---|---|
| `Text` | text.dfy | the `strings` functions the core uses (`TrimSpace`, `Split`, `Join`, `Index`, `ReplaceAll`) with their laws |
| `Order` | order.dfy | Go's string order, and a stable insertion sort that stands for `sort.Slice` and `sort.Strings` |
| `Results`, `Failures`, `Options` | results.dfy, failures.dfy, options.dfy | Option and Result, the error values of `run.go`, the command-line options |
| `LegacyArgs` | legacy_args.dfy | `normalizeLegacyArgs` |
| `Candidates` | candidates.dfy | `splitSymbol`, `displaySymbol`, `startsWithUpper`, `parseCompound`, `singleArgCandidates`, `buildCandidates` |
| `Resolve` | resolve.dfy | `matchStdSuffix`, `resolvePackage`, the option checks and the candidate loop of `execute` |
| `Tree` | tree.dfy | `buildPatterns`, the de-duplicate-then-sort step of `loadPackageTree`, `deriveRelativeDir`, `sameDir` |
| `Toc` | toc.dfy | `buildTOC`, `appendTOCAfterDoc`, `linkTitle` |
| `Plan` | plan.dfy | the README writes of `writePackageDocsToDir` and `writePackageDocsInPlace` |
| `DocModel` | docmodel.dfy | the parts of a `go/doc` package that the renderer reads |
| `Markdown` | markdown.dfy | `leadingWhitespace`, `dedentMarkdown`, `docMarkdown`, `summaryText`, `bulletLine`, `matchName`, `valueHasName`, `valueTitle` |
| `Render` | render.dfy | `markdownRenderer` and `documentTarget` |
| `RenderFacts` | render_facts.dfy | properties of the rendered pages |

Some of the code updates state step by step: index loops, a `seen` map, a
`bytes.Buffer`, an `io.Writer`. That code is written as methods with loops
and invariants. Each such method is proved equal to a specification function,
and lemmas then state what that function promises. The `io.Writer` is the
class `Render.Writer`, whose string `buf` only grows. Each render method
states the exact text it appends to it.

## Model

| member | source | states |
|---|---|---|
| `LegacyArgs.NormalizeArgDoublesDash` | run.go:167-189 | an argument before `--` is either passed on unchanged or gains exactly one leading dash; it gains one if and only if it starts with a single dash, is longer than two characters, and names a legacy long flag, either before its first `=` or as a whole |
| `LegacyArgs.NormalizeArgIdempotent` | run.go:167-189 | rewriting a rewritten argument changes nothing; the result is `--` exactly when the argument was `--` |
| `LegacyArgs.NormalizeArgAll` | run.go:139-149 | `-all` becomes `--all` |
| `LegacyArgs.NormalizeArgWithValue` | run.go:175-181 | a single-dash legacy flag followed by `=value` gains a dash and keeps its value |
| `LegacyArgs.NormalizeArgOutput` | run.go:175-181 | `-output=v` becomes `--output=v` for every value `v` |
| `LegacyArgs.NormalizeArgShort` | run.go:171-174 | a two-character argument such as `-x` is passed on as it is |
| `LegacyArgs.NormalizeArgNotLegacy` | run.go:183-189 | a single-dash argument without `=` that is not a legacy flag name is passed on as it is |
| `LegacyArgs.NormalizeArgUnknown` | run.go:183-189 | `-verbose` is not rewritten |
| `LegacyArgs.Normalized` | run.go:151-195 | the result has as many arguments as the input |
| `LegacyArgs.NormalizedAt` | run.go:157-190 | each argument at or after the first `--` is copied verbatim; each one before it is rewritten on its own |
| `LegacyArgs.NormalizeLegacyArgs` | run.go:151-195 | the loop with its early break at `--` and its `modified` flag returns exactly `Normalized(args)` |
| `LegacyArgs.NormalizedIdempotent` | run.go:151-195 | normalising the arguments twice gives the same list as normalising them once |
| `Candidates.SplitSymbolRoundTrip` | run.go:274-283 | the symbol never contains a dot; a spec without a dot is all symbol; a spec with a dot is `symbol + "." + method`, so any further dots stay in the method |
| `Candidates.DisplaySplitRoundTrip` | run.go:118-126 | displaying a split symbol gives back the typed spec when it neither starts nor ends with a dot |
| `Candidates.TrailingDotDropped` | run.go:274-283 | `Greeter.` splits into `("Greeter", "")` and is shown as `Greeter`: the trailing dot is lost |
| `Candidates.DotsBelowExact` | run.go:255-263 | the split positions below `n` are exactly the dots at indices 1 to n-1, in increasing order |
| `Candidates.ParsedBelowSize` | run.go:253-272 | one guess per split position |
| `Candidates.ParsedBelowAt` | run.go:259-269 | the k-th guess is the split at the k-th dot: `pkgExpr = arg[:i]` and `splitSymbol(arg[i+1:])` |
| `Candidates.ParseCompound` | run.go:253-272 | the index loop returns exactly the guesses at the dots after the first character, in order |
| `Candidates.CompoundAtDots` | run.go:253-272 | there is one guess per dot at index 1 or more; each guess is the split at its dot, the dots increase, and a leading dot gives nothing |
| `Candidates.Add` | run.go:214-229 | one call of the `add` closure consumes one proposal: it appends the proposal, with `""` replaced by `.`, exactly when its key was not seen |
| `Candidates.AddEach` | run.go:240-244 | the loop over the compound guesses is `add` applied to each guess in order |
| `Candidates.SingleArgCandidates` | run.go:211-251 | the candidates are the proposals (local symbol when capitalised, the package path, the compound splits, the local symbol) filtered by key, in that order |
| `Candidates.KeysContains` | run.go:215 | every proposal's key is among the keys of its list |
| `Candidates.AddAllFresh` | run.go:214-229 | proposals whose keys are new and distinct are all kept, in order |
| `Candidates.KeyOfSplitAt` | run.go:215 | the key of the split at index i starts with `arg[:i]` followed by the bar that separates the key's parts |
| `Candidates.CompoundKeys` | run.go:240-244 | the compound guesses have non-empty package expressions; their keys are pairwise distinct and differ from the key of `(arg, "", "")` |
| `Candidates.HeadCompoundFresh` | run.go:231-244 | for a non-empty argument, the leading guesses and the compound guesses never repeat a key |
| `Candidates.SingleArgOrder` | run.go:231-248 | the result is the head guesses, then the compound guesses, then the local symbol only if its key is new |
| `Candidates.SingleArgCandidatesProperties` | run.go:211-251 | for a non-empty argument: no two candidates share a key, every package expression is non-empty, `(arg, "", "")` is present, and the first candidate is the local symbol when the argument is capitalised and path-free, else `(arg, "", "")` |
| `Candidates.EmptyArgTwice` | run.go:215-227 | for the empty argument the key is taken before `""` becomes `.`, so the result holds `(".", "", "")` twice |
| `Candidates.BuildCandidates` | run.go:197-209 | the result is `ArgCandidates(args)`: 0 arguments give `[(".", "", "")]`; 1 argument gives `singleArgCandidates`; 2 give one guess `(args[0], splitSymbol(args[1]))`; more than 2, and only then, give the "too many positional arguments" error |
| `Resolve.ProposalsLeadToCandidates` | run.go:87-93 | one argument always yields at least one candidate |
| `Resolve.BestMatchIsSmallest` | run.go:400-408 | for a non-empty argument the best match is `""` exactly when no path equals the argument or ends in `/argument`; otherwise it is such a path, and no smaller one exists |
| `Resolve.MatchStdSuffix` | run.go:392-409 | the accumulator loop returns `""` for an empty argument or a failed path listing, and the best match otherwise |
| `Resolve.ResolvePackage` | run.go:352-369 | the resolver's result agrees with `Resolve` on every input |
| `Resolve.ResolveOutcomes` | run.go:352-369 | a successful load of the expression (`.` for `""`) is returned; otherwise the standard-library match is loaded if there is one; the "could not resolve" error comes back exactly when neither gives a result |
| `Resolve.FirstSuccessWins` | run.go:95-111 | when every earlier candidate falls through and candidate i resolves and is handled, its Markdown is the result |
| `Resolve.AllFallThrough` | run.go:95-115 | when every candidate falls through, the result is the last candidate's failure: its load error, or "no matching symbol" with its display form and package path; an empty list gives the error carried in, or "unable to locate documentation target" |
| `Resolve.ExecuteCandidates` | run.go:95-115 | the loop, with `lastErr` and its early returns, computes `TryCandidates` from no previous error |
| `Resolve.Dispatch` | run.go:56-93 | `-o` with `-inplace` is refused; in-place and directory output take at most one argument and document the tree at that argument or `.`; `-all` with several arguments is refused; otherwise the error is "too many positional arguments", given exactly when there are more than two arguments, and the candidate loop receives exactly the list `buildCandidates` returns, which is never empty |
| `Tree.BuildPatterns` | run.go:544-563 | the first pattern is the trimmed root, or `.` for a blank one; a second, recursive pattern extending it with `...` is added exactly when the root does not contain `...` |
| `Tree.RecursiveBelow` | run.go:551-560 | the recursive pattern starts with the root and contains `...` |
| `Tree.RecursivePatternIsFixed` | run.go:544-563 | given as a root, the recursive pattern yields only itself |
| `Tree.UniqueKeys` | run.go:523-533 | the map holds exactly the keys of the loaded packages (import path, or directory when there is none), each mapped to a package with that key |
| `Tree.UniqueLastWins` | run.go:524-533 | each key keeps the last package that has it |
| `Tree.UniquePackages` | run.go:523-541 | the first package error is returned if there is one; otherwise the result holds each de-duplicated package once, sorted by import path |
| `Tree.DeriveRelativeDir` | run.go:493-509 | a usable relative path (both directories known, `filepath.Rel` succeeds, non-empty, not starting with `..`) is the answer; anything starting with `..` that comes out came from a fallback: import path, base name of the directory, or package name |
| `Tree.DeriveRelativeDirFallbacks` | run.go:501-508 | without a usable relative path the fallbacks come in order: the import path when it is non-empty, else the last element of the directory when there is one, else the package name |
| `Tree.DotDotPrefixRefused` | run.go:495 | a directory named `..foo` inside the base is refused as a relative path, and the import path is used instead |
| `Tree.SameDirEquivalence` | run.go:690-695 | `sameDir` is symmetric and transitive, reflexive on non-empty paths, and false whenever a path is empty |
| `Toc.LinkTitle` | run.go:716-724 | the title is never empty: the relative directory when it is not the root, else the import path, else `.` |
| `Toc.BuildTOC` | run.go:726-741 | the buffer loop writes exactly `TOC(entries)`: nothing for no entries, else the heading, a blank line, one line per entry and a blank line |
| `Toc.LineTextsSingle` | run.go:732-738 | no entry line contains a line break |
| `Toc.TocLayout` | run.go:726-741 | read line by line, the table is `## Packages`, a blank line, the entry lines in input order, and a final blank line |
| `Toc.AppendTOCAfterDoc` | run.go:697-714 | the appended bytes are exactly `AppendToc(doc, toc)` |
| `Toc.AppendTocPadded` | run.go:697-714 | for a non-empty document and table, the result is the document, then its padding, then the table |
| `Toc.PaddingEndsBlank` | run.go:705-711 | after the padding the document ends with a blank line |
| `Toc.PaddingNone` | run.go:705 | nothing is added exactly when the document already ends with a blank line |
| `Toc.PaddingMinimal` | run.go:705-711 | one line break fewer would not end the document with a blank line |
| `Toc.AppendTocEmpty` | run.go:697-714 | the result is empty exactly when both parts are |
| `Plan.NonRoot` | run.go:602-606 | the documents written on their own are exactly the ones that are not the root |
| `Plan.LastRoot` | run.go:602-606 | a root document is kept exactly when the tree has one, and it is the last such document |
| `Plan.DirFoldShape` | run.go:592-615 | the loop writes each non-root document's README in order, collects its table entry, and keeps the last root document with its README path |
| `Plan.DirPlanWritesPackage` | run.go:607 | a non-root package gets its own README holding its Markdown |
| `Plan.DirPlanWritesEachPackage` | run.go:592-615 | every non-root package of the tree gets its own README holding its Markdown |
| `Plan.DirPlanRootLast` | run.go:619-625 | when the tree has a root package, the last file written is the README in the output directory, and it starts with that root's Markdown |
| `Plan.DirPlanClosedForm` | run.go:586-630 | the writes are the README of each non-root document in order of relative directory, then the README in the output directory holding the last root's Markdown followed by the table of every other document sorted by title; without a root, the table alone, and only when it is not empty |
| `Plan.DirPlanEmpty` | run.go:620-630 | with no documents nothing is written |
| `Plan.WritePackageDocsToDir` | run.go:579-632 | the method's writes are exactly `DirPlan`: the "missing output directory" error for an empty directory, else the README writes in order |
| `Plan.AppendTocExtends` | run.go:697-714 | the root README starts with the root's own documentation |
| `Plan.Own` | run.go:644-656 | the documents written in place on their own are exactly the ones with a directory other than the base |
| `Plan.LastInBase` | run.go:652-655 | the base document is kept exactly when some document lives in the base directory, and it is the last such document |
| `Plan.InPlaceFoldShape` | run.go:642-669 | the loop writes each document outside the base next to its package, collects its entry, and keeps the last document in the base with its README path |
| `Plan.InPlacePlanWritesEachPackage` | run.go:642-669 | every package outside the base directory gets its Markdown in its own directory |
| `Plan.InPlacePlanRootLast` | run.go:673-687 | the base README is written exactly when there is a table or a non-empty base document; it is then the last write, in the base document's directory or else the base directory, and it starts with the base document's Markdown |
| `Plan.InPlacePlanClosedForm` | run.go:638-687 | the writes are the README of each document outside the base, in input order, then one base README (in the last base document's directory, else the base) holding that document's Markdown followed by the table of the others sorted by title, or the table alone; it is written only when that content is not empty |
| `Plan.WritePackageDocsInPlace` | run.go:634-688 | the method's writes are exactly `InPlacePlan`: an error for an empty base directory, else the README writes in order |
| `Markdown.Indent` | render.go:355-365 | the indent is the longest run of spaces and tabs that starts the line |
| `Markdown.LeadingWhitespace` | render.go:355-365 | the counter loop returns that indent |
| `Markdown.MinIndentIsLeast` | render.go:334-343 | the least indent is -1 exactly when every line is blank; otherwise it is at most the indent of each non-blank line and equal to the indent of one of them |
| `Markdown.DedentMarkdown` | render.go:332-353 | the two loops, including the in-place rewrite of the lines, return exactly `Dedent(src)` |
| `Markdown.DedentLines` | render.go:332-353 | the lines of the result are the input lines, each stripped of the least indent when that indent is positive, else left as they are |
| `Markdown.DedentRemovesIndentOnly` | render.go:347-351 | the line count is kept; each line loses exactly its first minIndent characters, and those characters are spaces or tabs |
| `Markdown.StrippedMinIndent` | render.go:339-346 | after the least indent is removed, the least indent is 0 |
| `Markdown.DedentUnchanged` | render.go:344-346 | a text whose least indent is not positive is returned unchanged |
| `Markdown.DedentIdempotent` | render.go:332-353 | dedenting twice gives the same text as dedenting once |
| `Markdown.DocMarkdownIsTrimmed` | render.go:324-330 | the doc block of a comment is the comment trimmed of white space: dedenting an already trimmed text changes nothing |
| `Markdown.SummaryEmpty` | render.go:367-371 | the summary is empty exactly when the comment is blank |
| `Markdown.SummaryOneLine` | render.go:367-377 | the summary never contains a line break |
| `Markdown.SummaryFirstSentence` | render.go:372-376 | the summary is the flattened comment up to and including the first `.` followed by a space, or the whole flattened text when it has none, trimmed of white space |
| `Markdown.SummaryExample` | render.go:367-377 | `Does X. Does Y.` gives `Does X.` |
| `Markdown.BulletLineOneLine` | render.go:399-404 | a bullet line is one line when its signature and summary are |
| `Markdown.BulletLineParts` | render.go:399-404 | a bullet line starts with the signature in backquotes; it is just that exactly when the summary is empty, and otherwise continues with an em dash and the summary |
| `Markdown.MatchNameEquivalence` | render.go:383-388 | name matching is an equivalence in both modes, and a case-sensitive match is a match in either mode |
| `Markdown.MatchNameExample` | render.go:383-388 | `greeter` matches `Greeter` only without case sensitivity |
| `Markdown.ValueHasName` | render.go:390-397 | the loop finds a name exactly when some name of the group matches |
| `Markdown.ValueTitleOneLine` | render.go:320-322 | the title of a group is one line when its names are |
| `Order.LessTotal` | render.go:140 | Go's string order is total on different strings |
| `Order.LessTransitive` | render.go:140 | Go's string order is transitive |
| `Order.SortBy` | run.go:538-540 | sorting keeps the same elements, with the same counts, and orders them by key |
| `Order.SortStrings` | render.go:140 | `sort.Strings` keeps the same elements, with the same counts, in ascending order |
| `Render.Writer.Write` | render.go:21-49 | each write appends its text to the buffer and changes nothing else |
| `Render.Renderer.WriteCodeBlock` | render.go:272-277 | writes nothing for empty code, else the trimmed code in a Go fence followed by a blank line |
| `Render.Renderer.WriteDoc` | render.go:28-31 | writes the doc block of the comment: nothing for a blank comment |
| `Render.Renderer.RenderValueDoc` | render.go:177-188 | writes exactly the value page: a bullet line under `-short`, else heading, code block and doc block |
| `Render.Renderer.RenderFuncDoc` | render.go:201-220 | writes exactly the function page: a bullet line under `-short`, else heading (qualified by the receiver), source or signature, and doc block |
| `Render.Renderer.RenderValueDocs` | render.go:171-173 | the loop writes the page of each value, in order |
| `Render.Renderer.RenderFuncDocs` | render.go:195-197 | the loop writes the page of each function, in order |
| `Render.Renderer.RenderValuesSection` | render.go:166-175 | nothing for no values, else heading, the value pages and a blank line |
| `Render.Renderer.RenderFuncsSection` | render.go:190-199 | nothing for no functions, else heading, the function pages and a blank line |
| `Render.Renderer.RenderTypeDoc` | render.go:153-164 | writes exactly the type page: heading, declaration, doc, then constants, variables, constructors and methods |
| `Render.Renderer.RenderTypesSection` | render.go:147-151 | writes the page of each type, in order |
| `Render.Renderer.RenderTypesNamed` | render.go:53-58 | writes the page of each type whose name matches, and reports whether any matched |
| `Render.Renderer.RenderFuncsNamed` | render.go:59-64 | writes the page of each function whose name matches, and reports whether any matched |
| `Render.Renderer.RenderValuesNamed` | render.go:65-76 | writes the page of each value group that declares the name, and reports whether any did |
| `Render.Renderer.RenderTypeMembers` | render.go:78-95 | for one type, writes its constants, variables and constructors that match, and reports whether any did |
| `Render.Renderer.RenderMembersNamed` | render.go:77-96 | the same over all types, in order |
| `Render.Renderer.RenderSymbol` | render.go:51-98 | writes exactly the symbol page, and returns true exactly when some type, function, value or per-type member matches |
| `Render.Renderer.RenderFieldName` | render.go:238-250 | writes one matching field name: a bullet under `-short`, else heading, code block and doc block |
| `Render.Renderer.RenderFieldNames` | render.go:237-251 | writes each matching name of one field, and reports whether any matched |
| `Render.Renderer.RenderFieldDoc` | render.go:222-254 | nothing and false for a type that is not a struct; otherwise each matching field name, and true exactly when one matched |
| `Render.Renderer.RenderTypeMethods` | render.go:102-114 | for a type of the name, writes its matching methods and fields and reports whether any matched; another type gives nothing |
| `Render.Renderer.RenderMethod` | render.go:100-117 | writes exactly the method page, and returns true exactly when a matching type has a matching method or field |
| `Render.Renderer.AppendValueBullets` | render.go:121-128 | the loop appends one bullet per value group, in order |
| `Render.Renderer.AppendFuncBullets` | render.go:130-132 | the loop appends one bullet per function, in order |
| `Render.Renderer.AppendTypeBullets` | render.go:134-136 | the loop appends one bullet per type, in order |
| `Render.Renderer.WriteLines` | render.go:141-143 | each entry is written followed by a line break |
| `Render.Renderer.RenderPackageSummary` | render.go:119-145 | writes exactly the summary table |
| `Render.Renderer.WriteHeader` | render.go:22-27 | writes `# package` and the import line only for a package that is not `main`, and the import line only with an import path |
| `Render.Renderer.RenderCommandSections` | render.go:32-41 | for a command, writes Variables and Functions only when asked for |
| `Render.Renderer.RenderAllSections` | render.go:43-48 | with `-all`, writes Constants, Variables, Functions and Types, in that order |
| `Render.Renderer.RenderPackage` | render.go:21-49 | writes exactly the package page: header, doc block, summary table, then the sections chosen by the options |
| `Render.DocumentTarget` | run.go:293-318 | a build error is passed on; no symbol gives the package page, its summary and "handled"; a symbol gives its page, handled when found; a symbol and a method give the method page, handled when found |
| `RenderFacts.ValueDocNonEmpty` | render.go:177-188 | rendering a value always writes something |
| `RenderFacts.FuncDocNonEmpty` | render.go:201-220 | rendering a function always writes something |
| `RenderFacts.TypePageNonEmpty` | render.go:153-164 | rendering a type always writes its heading |
| `RenderFacts.ValuesNamedEmpty` | render.go:65-76 | the values loop writes something exactly when a group declares the name |
| `RenderFacts.FuncsNamedEmpty` | render.go:59-64 | the functions loop writes something exactly when a name matches |
| `RenderFacts.TypesNamedEmpty` | render.go:53-58 | the types loop writes something exactly when a name matches |
| `RenderFacts.MembersNamedEmpty` | render.go:77-96 | the per-type members loop writes something exactly when a member matches |
| `RenderFacts.SymbolPageEmpty` | render.go:51-98 | `renderSymbol` writes something exactly when it returns true |
| `RenderFacts.FieldDocEmpty` | render.go:222-254 | `renderFieldDoc` writes something exactly when it returns true |
| `RenderFacts.MethodPageEmpty` | render.go:100-117 | `renderMethod` writes something exactly when it returns true |
| `RenderFacts.SymbolPageHoldsType` | render.go:53-58 | the symbol page holds the whole page of every type of that name |
| `RenderFacts.SymbolIgnoresMethods` | render.go:51-98 | whether a symbol is found does not depend on any type's methods |
| `RenderFacts.TypePagesHold` | render.go:147-151 | the types section holds the page of every type |
| `RenderFacts.AllPageHoldsTypes` | render.go:43-48 | with `-all`, the package page holds the page of every type |
| `RenderFacts.ValueBulletAt` | render.go:121-128 | the summary entry at index i is the bullet of value group i |
| `RenderFacts.FuncBulletAt` | render.go:130-132 | the summary entry at index i is the bullet of function i |
| `RenderFacts.TypeBulletAt` | render.go:134-136 | the summary entry at index i is the bullet of type i |
| `RenderFacts.SummaryTableEntries` | render.go:119-140 | the table lists every constant group and every type; it lists variables and functions only when they are shown; it has exactly that many entries |
| `RenderFacts.EntriesOneLine` | render.go:119-136 | each entry of the summary table is one line |
| `RenderFacts.SummaryTableLines` | render.go:137-144 | nothing is written exactly when there are no entries; otherwise the output, read line by line, is the entries in ascending order followed by one blank line |
| `RenderFacts.PackageHeading` | render.go:22-31 | a page that is not a command's starts with `# package name`, then the import line when there is an import path, then the doc block |
| `RenderFacts.CommandPageStart` | render.go:22-33 | a command's page has no heading: it starts with the doc block and the summary table |
| `RenderFacts.PageEndsAtSummary` | render.go:32-48 | without `-all`, and without the include options of a command shown as a command, the page ends with the summary table |
| `RenderFacts.DocBlockIsTrimmedComment` | render.go:28-31 | a doc comment is written as the comment trimmed of white space followed by a blank line, or not at all when blank |

## Left out

- Package loading is not modelled (`packages.Load`, `loadPackage`, `loadStdPackages` and its `sync.Once`, `doc.NewFromFiles` in `buildDocPackage`). These are calls into libraries. The loader becomes a function parameter returning a package or an error. The standard-library path list and its loading error are parameters of `MatchStdSuffix`. `DocumentTarget` receives the result of `buildDocPackage`.
- Pretty-printing is not modelled (`formatNode`, `formatField`, `signature`, `findTypeSpec`), because it belongs to `go/format` and `go/ast`. Each declaration, signature and field is an already printed string in `DocModel`, `""` when it cannot be printed. A type that is not a struct has `fields == None`.
- The filesystem is not modelled: `os.Stat`, `os.MkdirAll`, `os.WriteFile` and the return values of its writes, `writeOutput`, `wantsDirectoryOutput`, `resolveBaseDir`, `absolutePath` and `packageDir`. The write plan is the list of `Write(path, content)` calls in order. `wantsDirectoryOutput` is a boolean parameter of `Dispatch`.
- `collectPackageDocs` and `documentPackageTree` are not modelled, because they are loader and filesystem glue. `Dispatch` stops at the decision to document a tree.
- `filepath.Join`, `filepath.Rel` and `filepath.Clean` are function parameters, and `filepath.Base` is one too. `filepath.ToSlash` and `filepath.FromSlash` are the identity, as on a system whose separator is `/`.
- `Candidates.StartsWithUpper`: `unicode.IsUpper` is restricted to the ASCII letters A to Z.
- `Markdown.MatchName`: `strings.EqualFold` is restricted to ASCII case folding.
- Strings are sequences of characters, while Go indexes bytes. The two agree on ASCII text, which is where the index arithmetic matters (`len(arg) == 2`, `arg[:i]`, `line[minIndent:]`). `unicode.IsSpace` uses its full list of white-space code points.
- The separator of a table line at run.go:734 is the three characters U+00E2 U+20AC U+201D that the file holds. The bullet dash at render.go:403 is U+2014.
- `Order.SortBy`: `sort.Slice` is not stable, so Go may order equal keys differently. The model uses one stable insertion sort. Where keys are unique (import paths after de-duplication, sorted strings) this makes no difference.
- `Tree.UniquePackages`: the order in which Go ranges over the map is random. The model lists the map's values in an arbitrary order and sorts them, so only the contents and the sorted order are stated.
- `RenderFacts.SummaryTableLines`: the line-by-line reading holds when no entry contains a line break. That is proved for titles and summaries, but the printed signature of a function is opaque and assumed to be one line (`EntriesOneLine` takes it as a requirement).
- Errors are values: `fmt.Errorf` texts are the `Failure` constructors with their arguments, and `%q` quoting is not modelled.
- `main.go`, `cobra_cli.go`, `doc.go` and the tests are not part of this model, and neither is the command-line flag parsing that follows `normalizeLegacyArgs`.
