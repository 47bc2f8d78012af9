/** The command-line options that steer resolution and rendering. */
module Options {

  datatype Options = Options(
    all: bool,
    caseSensitive: bool,
    showCmd: bool,
    short: bool,
    showSource: bool,
    unexported: bool,
    outputPath: string,
    inplace: bool,
    includeMainVars: bool,
    includeMainFuncs: bool)
}
