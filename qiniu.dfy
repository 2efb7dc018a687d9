/**
 * The Qiniu driver's only departure from the base driver in the core: a
 * configured base `url` is used before anything the adapter offers.
 */
module Qiniu {
  import opened Php
  import opened Errors
  import opened Urls

  /**
   * `Qiniu::url`: with a configured `url`, the base URL joined with the path;
   * otherwise the base driver's chain.
   */
  function QiniuUrl(config: map<string, Value>, caps: Capabilities, path: string): (r: Result<string>)
    ensures Isset(config, "url") && config["url"].Str? ==>
      r.Ok? && JoinedByOneSlash(config["url"].s, path, r.value)
    ensures Isset(config, "url") && !config["url"].Str? ==> r == Raised(TypeError)
    ensures !Isset(config, "url") ==> r == Url(config, caps, path)
  {
    if Isset(config, "url") then ConfiguredUrl(config, path) else Url(config, caps, path)
  }

  /** A configured `url` takes precedence: the adapter's own `getUrl` is not consulted. */
  lemma ConfiguredUrlWins(config: map<string, Value>, caps: Capabilities, other: Capabilities, path: string)
    requires Isset(config, "url")
    ensures QiniuUrl(config, caps, path) == QiniuUrl(config, other, path)
    ensures config["url"].Str? ==> QiniuUrl(config, caps, path) == Ok(ConcatPathToUrl(config["url"].s, path))
  {
  }

  /**
   * Without any `getUrl` capability, Qiniu answers what the base driver
   * answers when no `url` is configured, and also, with one configured,
   * for a local, FTP or SFTP adapter, whose base URLs already come from
   * that `url`.
   */
  lemma QiniuDiffersOnlyByBaseUrl(config: map<string, Value>, caps: Capabilities, path: string)
    requires !Isset(config, "url") || caps.adapter == LocalAdapter
             || caps.adapter == FtpAdapter || caps.adapter == SftpAdapter
    requires caps.adapterGetUrl.None? && caps.filesystemGetUrl.None?
    ensures QiniuUrl(config, caps, path) == Url(config, caps, path)
  {
  }
}
