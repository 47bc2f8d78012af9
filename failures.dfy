/** The errors run.go returns, as values: fixed messages from errors.New and
    the formatted ones from fmt.Errorf. */
module Failures {

  datatype Failure =
    /** errors.New with a fixed usage message */
    | Usage(message: string)
    /** an error returned by the package loader, passed on unchanged */
    | LoadFailed(cause: string)
    /** fmt.Errorf("no matching symbol %q in %s", displaySymbol(...), pkgPath) */
    | NoMatchingSymbol(display: string, pkgPath: string)
    /** fmt.Errorf("could not resolve package path for %q", expr) */
    | Unresolved(expr: string)

  const TooManyPositionals: string := "too many positional arguments"
  const NoArguments: string := "no arguments provided"
  const OutputWithInPlace: string := "-o cannot be combined with -inplace"
  const InPlaceOneArgument: string := "in-place mode accepts at most one package argument"
  const DirectoryOneArgument: string := "directory output accepts at most one package argument"
  const AllOneArgument: string := "-all can only be used with a single package argument"
  const NotLocated: string := "unable to locate documentation target"
  const MissingOutputDirectory: string := "missing output directory"
  const MissingBaseDirectory: string := "missing base directory for in-place output"
}
