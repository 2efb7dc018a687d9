/**
 * URL derivation of the base driver: a priority chain over what the adapter
 * and the Flysystem object offer, with a synthesis from the configured base
 * `url` for FTP, SFTP and local adapters.
 */
module Urls {
  import opened Php
  import opened Errors

  /** The adapter classes `url` tests with `instanceof`. */
  datatype AdapterKind = LocalAdapter | FtpAdapter | SftpAdapter | OtherAdapter

  /**
   * What `url` probes: a `getUrl` method on the adapter and on the Flysystem
   * object (`method_exists`), each given as the function it computes, and the
   * adapter's class.
   */
  datatype Capabilities = Capabilities(
    adapterGetUrl: Option<string -> string>,
    filesystemGetUrl: Option<string -> string>,
    adapter: AdapterKind)

  const UnsupportedUrl := "This driver does not support retrieving URLs."

  /**
   * `r` is `url` with its trailing '/'s cut off, then exactly one '/', then
   * `path` with its leading '/'s cut off.
   */
  ghost predicate JoinedByOneSlash(url: string, path: string, r: string)
  {
    exists k :: JoinedAt(url, path, r, k)
  }

  /** The single '/' of `JoinedByOneSlash` is at index `k` of `r`. */
  ghost predicate JoinedAt(url: string, path: string, r: string, k: int)
  {
    && 0 <= k < |r| && k <= |url| && r[k] == '/'
    && r[..k] == url[..k] && OnlyChar(url[k..], '/') && (k == 0 || r[k - 1] != '/')
    && |r| - k - 1 <= |path|
    && r[k + 1..] == path[|path| - (|r| - k - 1)..]
    && OnlyChar(path[..|path| - (|r| - k - 1)], '/')
    && (k + 1 == |r| || r[k + 1] != '/')
  }

  /** `concatPathToUrl`: `rtrim($url, '/') . '/' . ltrim($path, '/')`. */
  function ConcatPathToUrl(url: string, path: string): (r: string)
    ensures JoinedByOneSlash(url, path, r)
  {
    var base := RTrim(url, '/');
    var rest := LTrim(path, '/');
    JoinedWitness(url, path, base, rest);
    base + "/" + rest
  }

  lemma JoinedWitness(url: string, path: string, base: string, rest: string)
    requires base <= url && OnlyChar(url[|base|..], '/') && (base == [] || base[|base| - 1] != '/')
    requires |rest| <= |path| && rest == path[|path| - |rest|..]
    requires OnlyChar(path[..|path| - |rest|], '/') && (rest == [] || rest[0] != '/')
    ensures JoinedByOneSlash(url, path, base + "/" + rest)
  {
    var r := base + "/" + rest;
    var k := |base|;
    assert r[k] == '/';
    assert r[..k] == base == url[..k];
    assert r[k + 1..] == rest;
    assert |r| - k - 1 == |rest|;
    assert k == 0 || r[k - 1] == base[k - 1];
    assert k + 1 < |r| ==> rest != [] && r[k + 1] == rest[0] && rest[0] != '/';
    assert JoinedAt(url, path, r, k);
  }

  /** Extra trailing '/'s do not change what `rtrim` leaves. */
  lemma {:induction false} RTrimIgnoresExtraSlashes(url: string, m: nat)
    ensures RTrim(url + Repeat('/', m), '/') == RTrim(url, '/')
    decreases m
  {
    if m == 0 {
      assert url + Repeat('/', 0) == url;
    } else {
      var u := url + Repeat('/', m);
      assert u[..|u| - 1] == url + Repeat('/', m - 1);
      RTrimIgnoresExtraSlashes(url, m - 1);
    }
  }

  /** Extra leading '/'s do not change what `ltrim` leaves. */
  lemma {:induction false} LTrimIgnoresExtraSlashes(path: string, n: nat)
    ensures LTrim(Repeat('/', n) + path, '/') == LTrim(path, '/')
    decreases n
  {
    if n == 0 {
      assert Repeat('/', 0) + path == path;
    } else {
      var p := Repeat('/', n) + path;
      assert p[1..] == Repeat('/', n - 1) + path;
      LTrimIgnoresExtraSlashes(path, n - 1);
    }
  }

  /**
   * However many '/'s end the base URL or start the path, the two are joined
   * by exactly one.
   */
  lemma ConcatIgnoresExtraSlashes(url: string, path: string, m: nat, n: nat)
    ensures ConcatPathToUrl(url + Repeat('/', m), Repeat('/', n) + path) == ConcatPathToUrl(url, path)
  {
    RTrimIgnoresExtraSlashes(url, m);
    LTrimIgnoresExtraSlashes(path, n);
  }

  /**
   * The URL synthesised from the configured base `url` (which `isset` found):
   * `rtrim` refuses a base that is not a string.
   */
  function ConfiguredUrl(config: map<string, Value>, path: string): (r: Result<string>)
    requires Isset(config, "url")
    ensures config["url"].Str? ==> r == Ok(ConcatPathToUrl(config["url"].s, path))
    ensures !config["url"].Str? ==> r == Raised(TypeError)
  {
    match config["url"]
    case Str(base) => Ok(ConcatPathToUrl(base, path))
    case _ => Raised(TypeError)
  }

  /** `getLocalUrl`: the base URL joined with the path, or the bare path. */
  function LocalUrl(config: map<string, Value>, path: string): (r: Result<string>)
    ensures !Isset(config, "url") ==> r == Ok(path)
    ensures Isset(config, "url") ==> r == ConfiguredUrl(config, path)
  {
    if Isset(config, "url") then ConfiguredUrl(config, path) else Ok(path)
  }

  /** `getFtpUrl`: written separately, it computes what `getLocalUrl` does. */
  function FtpUrl(config: map<string, Value>, path: string): (r: Result<string>)
    ensures r == LocalUrl(config, path)
  {
    if Isset(config, "url") then ConfiguredUrl(config, path) else Ok(path)
  }

  /**
   * `url` of the base driver. The first source that applies wins: the
   * adapter's `getUrl`, the Flysystem object's `getUrl`, the synthesis for
   * FTP/SFTP, the one for local adapters; any other adapter is refused with
   * a `RuntimeException`.
   */
  function Url(config: map<string, Value>, caps: Capabilities, path: string): (r: Result<string>)
    ensures caps.adapterGetUrl.Some? ==> r == Ok(caps.adapterGetUrl.value(path))
    ensures (caps.adapterGetUrl.None? && caps.filesystemGetUrl.Some?) ==>
      r == Ok(caps.filesystemGetUrl.value(path))
    ensures r == Raised(RuntimeError(UnsupportedUrl)) <==>
      (caps.adapterGetUrl.None? && caps.filesystemGetUrl.None? && caps.adapter == OtherAdapter)
    ensures (caps.adapterGetUrl.None? && caps.filesystemGetUrl.None? && caps.adapter != OtherAdapter) ==>
      r == LocalUrl(config, path)
  {
    if caps.adapterGetUrl.Some? then Ok(caps.adapterGetUrl.value(path))
    else if caps.filesystemGetUrl.Some? then Ok(caps.filesystemGetUrl.value(path))
    else
      match caps.adapter
      case SftpAdapter => FtpUrl(config, path)
      case FtpAdapter => FtpUrl(config, path)
      case LocalAdapter => LocalUrl(config, path)
      case OtherAdapter => Raised(RuntimeError(UnsupportedUrl))
  }

  /** The chain does not consult `throw`: an unsupported driver raises whatever it says. */
  lemma UrlIgnoresThrow(config: map<string, Value>, caps: Capabilities, path: string, throwSetting: Value)
    ensures Url(config["throw" := throwSetting], caps, path) == Url(config, caps, path)
  {
    var c := config["throw" := throwSetting];
    assert Isset(c, "url") <==> Isset(config, "url");
    if Isset(config, "url") {
      assert c["url"] == config["url"];
    }
  }

  /** A local disk without a base URL gives the bare path. */
  lemma LocalWithoutBaseUrlIsBarePath(config: map<string, Value>, path: string)
    requires "url" !in config
    ensures Url(config, Capabilities(None, None, LocalAdapter), path) == Ok(path)
  {
  }
}
