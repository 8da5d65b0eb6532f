/** The records the resolver and the analyzer exchange, and the configuration they read. */
module Records {
  import opened Wrappers
  import opened Paths

  /** The file system as the core sees it: which files exist, and their text. */
  type FileSystem = map<AbsPath, string>

  /**
   * A module record. A record straight from the resolver never has `isMissing` set; records
   * for modules that could not be found come from the analyzer's missing-record factory.
   */
  datatype ModuleRecord = ModuleRecord(
    id: string,
    moduleName: string,
    filePath: Option<AbsPath>,
    isIgnored: bool,
    isExternal: bool,
    overrideApplied: bool,
    analyzeDependencies: bool,
    isMissing: bool,
    missingError: Option<JsError>)

  /** `modules.overrides[id]`: an alternative file, and whether its requires are followed. */
  datatype OverrideConfig = OverrideConfig(path: Option<string>, recursive: Option<bool>)

  /** `modules.external`: extra search roots (as written in the configuration) and their recursion flag. */
  datatype ExternalConfig = ExternalConfig(paths: seq<string>, recursive: Option<bool>)

  datatype ModulesConfig = ModulesConfig(
    ignore: seq<string>,
    overrides: map<string, OverrideConfig>,
    external: ExternalConfig)

  /** What the resolver reads from the normalized configuration. */
  datatype ResolverConfig = ResolverConfig(sourceRoot: AbsPath, modules: ModulesConfig)

  /** The `code` the analyzer treats as "module not found". */
  const ModuleNotFound := "MODULE_NOT_FOUND"

  /** What `fs.readFileSync` throws for a file that does not exist. */
  function ReadError(p: AbsPath): (e: JsError)
    ensures e.code == Some("ENOENT") && e.code != Some(ModuleNotFound)
  {
    JsError("ENOENT: no such file or directory, open '" + ToString(p) + "'", Some("ENOENT"))
  }
}
