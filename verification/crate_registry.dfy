/**
 * The registry's answer to "dependencies of a crate version"
 * (src/interfaces/crate_registry.rs). The HTTP client that fetches it is not
 * part of this model: a fetch is an input function returning this record or
 * an error.
 */
module CrateRegistry {
  import opened Options

  /** One declared dependency, as the registry reports it. */
  datatype Dependency = Dependency(
    id: int,
    versionId: int,
    crateId: string,
    req: string,
    optional: bool,
    defaultFeatures: bool,
    features: Option<seq<string>>,
    target: Option<string>,
    kind: string,
    downloads: int
  )

  /** Any failure of the registry call; the client collapses them all into one. */
  datatype RegistryError = RegistryError(message: string)
}
