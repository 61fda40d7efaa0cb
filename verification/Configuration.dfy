/** A location's resolved configuration, as far as this model uses it (config/resolve.rs). */
module Configuration {
  import opened Wrappers
  import opened Negotiation
  import opened StaticPolicy

  /** Each runtime coding that is switched on and built in has its level; brotli also has a window. */
  datatype Settings = Settings(
    enabled: bool,
    vary: bool,
    mode: StaticMode,
    priority: seq<ContentCoding>,
    gzip: Option<nat>,
    deflate: Option<nat>,
    brotli: Option<(nat, nat)>,
    zstd: Option<int>)
}
