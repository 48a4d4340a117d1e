/**
 * The string work of libopkg/opkg_download.c: where a downloaded file goes in the
 * cache (the URL with every '/' turned into '_', under the cache directory), which
 * URLs name a remote protocol, the local route taken by `file:` URLs, the URL of a
 * package's detached signature, and the steps of opkg_download_pkg().
 *
 * Fetching, copying and verifying files are outside the model: their outcomes are
 * parameters.
 */
module Download {
  import opened Wrappers
  import opened Pkg

  /** The character get_cache_location() stores for `c`. */
  function CacheChar(c: char): char {
    if c == '/' then '_' else c
  }

  /** The cache file name of a URL: every '/' replaced by '_'. */
  function CacheName(src: string): string {
    seq(|src|, i requires 0 <= i < |src| => CacheChar(src[i]))
  }

  /** The cache location of `src` under `cacheDir`: "<cache_dir>/<cache name>". */
  function CachePath(cacheDir: string, src: string): string {
    cacheDir + "/" + CacheName(src)
  }

  /** The cache name keeps the length of the URL, holds no '/', and keeps every other character in place. */
  lemma CacheNameShape(src: string)
    ensures |CacheName(src)| == |src|
    ensures '/' !in CacheName(src)
    ensures forall i :: 0 <= i < |src| && src[i] != '/' ==> CacheName(src)[i] == src[i]
    ensures forall i :: 0 <= i < |src| && src[i] == '/' ==> CacheName(src)[i] == '_'
  {
  }

  /**
   * Two URLs that differ only where one has '/' and the other '_' share a cache file:
   * the cache name forgets which of the two it was.
   */
  lemma CacheNameMerges(u: string, v: string)
    requires |u| == |v|
    requires forall i :: 0 <= i < |u| ==> u[i] == v[i] || (u[i] in {'/', '_'} && v[i] in {'/', '_'})
    ensures CacheName(u) == CacheName(v)
  {
    assert forall i :: 0 <= i < |u| ==> CacheName(u)[i] == CacheName(v)[i];
  }

  /** The cache location starts with the cache directory and a '/', after which comes the cache name. */
  lemma CachePathShape(cacheDir: string, src: string)
    ensures |CachePath(cacheDir, src)| == |cacheDir| + 1 + |src|
    ensures CachePath(cacheDir, src)[..|cacheDir| + 1] == cacheDir + "/"
    ensures CachePath(cacheDir, src)[|cacheDir| + 1..] == CacheName(src)
    ensures '/' !in CachePath(cacheDir, src)[|cacheDir| + 1..]
  {
    CacheNameShape(src);
    var p := CachePath(cacheDir, src);
    assert p == (cacheDir + "/") + CacheName(src);
  }

  /**
   * get_cache_location(): duplicates the URL into a buffer, rewrites each '/' in it to
   * '_', and prefixes the cache directory and a '/'.
   */
  method GetCacheLocation(cacheDir: string, src: string) returns (loc: string)
    ensures loc == CachePath(cacheDir, src)
  {
    var name := new char[|src|](i requires 0 <= i < |src| => src[i]);
    var i := 0;
    while i < name.Length
      invariant 0 <= i <= name.Length
      invariant forall k :: 0 <= k < i ==> name[k] == CacheChar(src[k])
      invariant forall k :: i <= k < name.Length ==> name[k] == src[k]
    {
      if name[i] == '/' {
        name[i] := '_';
      }
      i := i + 1;
    }
    assert name[..] == CacheName(src);
    loc := cacheDir + "/" + name[..];
  }

  /**
   * cache_url_exists(): despite its name it checks nothing and computes the same
   * location as get_cache_location() (the C code repeats the loop).
   */
  method CacheUrlExists(cacheDir: string, src: string) returns (loc: string)
    ensures loc == CachePath(cacheDir, src)
    ensures loc[..|cacheDir| + 1] == cacheDir + "/" && '/' !in loc[|cacheDir| + 1..]
  {
    loc := GetCacheLocation(cacheDir, src);
    CachePathShape(cacheDir, src);
  }

  // ---------------------------------------------------------------------------
  // URL classification

  /** str_starts_with(): the first |prefix| characters of `s` are `prefix`. */
  predicate StartsWith(s: string, prefix: string) {
    prefix <= s
  }

  /** The protocols url_has_remote_protocol() calls remote, in the order it tries them. */
  const RemoteProtos: seq<string> := ["http://", "ftp://", "https://", "ftps://"]

  /** The URL begins with one of the remote protocols. */
  predicate IsRemote(url: string) {
    exists k :: 0 <= k < |RemoteProtos| && StartsWith(url, RemoteProtos[k])
  }

  /** url_has_remote_protocol(): 1 when some remote protocol prefixes the URL, 0 otherwise. */
  method UrlHasRemoteProtocol(url: string) returns (r: int)
    ensures r == 1 <==> IsRemote(url)
    ensures r == 0 <==> !IsRemote(url)
  {
    var i := 0;
    while i < |RemoteProtos|
      invariant 0 <= i <= |RemoteProtos|
      invariant forall k :: 0 <= k < i ==> !StartsWith(url, RemoteProtos[k])
    {
      if StartsWith(url, RemoteProtos[i]) {
        return 1;
      }
      i := i + 1;
    }
    return 0;
  }

  /** The four protocols written out: a URL is remote exactly when it starts with one of them. */
  lemma RemoteProtocols(url: string)
    ensures IsRemote(url) <==>
      "http://" <= url || "ftp://" <= url || "https://" <= url || "ftps://" <= url
  {
    if "http://" <= url {
      assert StartsWith(url, RemoteProtos[0]);
    } else if "ftp://" <= url {
      assert StartsWith(url, RemoteProtos[1]);
    } else if "https://" <= url {
      assert StartsWith(url, RemoteProtos[2]);
    } else if "ftps://" <= url {
      assert StartsWith(url, RemoteProtos[3]);
    }
  }

  /** A URL whose first character is not 'h' or 'f' is never remote. */
  lemma NotRemoteByInitial(url: string)
    requires url == [] || (url[0] != 'h' && url[0] != 'f')
    ensures !IsRemote(url)
  {
    forall k | 0 <= k < |RemoteProtos| ensures !StartsWith(url, RemoteProtos[k]) {
      assert RemoteProtos[k][0] in {'h', 'f'};
    }
  }

  /** A `file:` URL is not remote: after "f" it has 'i' where "ftp://" and "ftps://" have 't'. */
  lemma FileNotRemote(url: string)
    requires StartsWith(url, "file:")
    ensures !IsRemote(url)
  {
    assert url[0] == 'f' && url[1] == 'i';
    forall k | 0 <= k < |RemoteProtos| ensures !StartsWith(url, RemoteProtos[k]) {
      var p := RemoteProtos[k];
      if p[0] == 'f' {
        assert p[1] == 't';
      }
    }
  }

  // ---------------------------------------------------------------------------
  // The route of a download

  /** Where opkg_download_internal() sends a URL. */
  datatype Route =
    | LocalFile(path: string)      // opkg_download_file() on the path after "file:"
    | EnvFailed(code: int)         // opkg_download_set_env() failed; its code is returned
    | Backend(src: string)         // the download backend fetches the URL

  /**
   * opkg_download_internal(): a `file:` URL is a local copy of the path after its five
   * prefix characters; otherwise the environment is set up (its result `envResult`)
   * and, when that succeeds, the backend is called with the URL.
   */
  function DownloadRoute(src: string, envResult: int): (r: Route)
    ensures r.LocalFile? <==> StartsWith(src, "file:")
    ensures r.LocalFile? ==> src == "file:" + r.path
    ensures r.EnvFailed? <==> !StartsWith(src, "file:") && envResult != 0
    ensures r.EnvFailed? ==> r.code == envResult
    ensures r.Backend? ==> r.src == src && envResult == 0
  {
    if StartsWith(src, "file:") then
      assert src == src[..5] + src[5..];
      LocalFile(src[5..])
    else if envResult != 0 then EnvFailed(envResult)
    else Backend(src)
  }

  /** The local path of a `file:` URL is given back by putting the prefix in front of it again. */
  lemma LocalRoundTrip(path: string, envResult: int)
    ensures DownloadRoute("file:" + path, envResult) == LocalFile(path)
  {
    var src := "file:" + path;
    assert StartsWith(src, "file:");
    assert src[5..] == path;
  }

  /** A URL that reaches the backend has no `file:` prefix; a remote one always reaches it once the environment is set. */
  lemma RemoteReachesBackend(src: string)
    requires IsRemote(src)
    ensures DownloadRoute(src, 0) == Backend(src)
  {
    FileNotRemoteContra(src);
  }

  lemma FileNotRemoteContra(src: string)
    requires IsRemote(src)
    ensures !StartsWith(src, "file:")
  {
    if StartsWith(src, "file:") {
      FileNotRemote(src);
      assert false;
    }
  }

  /**
   * opkg_download_cache(): the file lands at the cache location of the URL, which is
   * returned when the download succeeded (`err` is 0) and NULL otherwise.
   */
  function DownloadCache(cacheDir: string, src: string, err: int): (r: Option<string>)
    ensures r.Some? <==> err == 0
    ensures r.Some? ==> r.value == CachePath(cacheDir, src)
  {
    if err != 0 then None else Some(CachePath(cacheDir, src))
  }

  // ---------------------------------------------------------------------------
  // Signatures and packages

  /** The extension of a detached signature: "asc" for the "gpg-asc" signature type, "sig" for any other. */
  function SigExt(signatureType: string): string {
    if signatureType == "gpg-asc" then "asc" else "sig"
  }

  /** The URL pkg_download_signature() fetches: none without a package URL, else the URL, a dot and the extension. */
  function SignatureUrl(url: Option<string>, signatureType: string): (r: Option<string>)
    ensures r.None? <==> url.None?
    ensures r.Some? ==> url.value <= r.value
    ensures r.Some? && signatureType == "gpg-asc" ==> r.value == url.value + ".asc"
    ensures r.Some? && signatureType != "gpg-asc" ==> r.value == url.value + ".sig"
  {
    match url
    case None => None
    case Some(u) =>
      var s := u + "." + SigExt(signatureType);
      assert s[..|u|] == u;
      Some(s)
  }

  /** The signature URL is the package URL plus four characters, and the extension tells the signature type back. */
  lemma SignatureUrlExt(u: string, signatureType: string)
    ensures var s := SignatureUrl(Some(u), signatureType).value;
      |s| == |u| + 4 && (s[|u| + 1..] == "asc" <==> signatureType == "gpg-asc")
  {
    var s := SignatureUrl(Some(u), signatureType).value;
    assert s[|u| + 1..] == SigExt(signatureType);
  }

  /**
   * pkg_download_signature(): the signature URL is downloaded into the cache (`err`
   * is the download's result) and its cache location returned; no URL, no signature.
   */
  function PkgDownloadSignature(cacheDir: string, url: Option<string>, signatureType: string, err: int): (r: Option<string>)
    ensures url.None? ==> r.None?
    ensures r.Some? <==> url.Some? && err == 0
    ensures r.Some? ==> r.value == CachePath(cacheDir, SignatureUrl(url, signatureType).value)
  {
    match SignatureUrl(url, signatureType)
    case None => None
    case Some(sigUrl) => DownloadCache(cacheDir, sigUrl, err)
  }

  /**
   * opkg_download_pkg(): without a URL the result is -1 and nothing changes.  Otherwise
   * the package's local file name becomes the cache location of its URL; when the
   * cached file verifies (`cachedOk` is 0) the result is 0; otherwise the package is
   * downloaded into the cache (`downloadErr`) and the result is -1 on failure, else
   * that of the second verification (`downloadedOk`).
   */
  method DownloadPkg(pkg: Package, cacheDir: string, cachedOk: int, downloadErr: int, downloadedOk: int)
    returns (res: int)
    modifies pkg`localFilename
    ensures pkg.url.None? ==> res == -1 && pkg.localFilename == old(pkg.localFilename)
    ensures pkg.url.Some? ==> pkg.localFilename == Some(CachePath(cacheDir, pkg.url.value))
    ensures pkg.url.Some? ==> res == (if cachedOk == 0 then 0 else if downloadErr != 0 then -1 else downloadedOk)
  {
    if pkg.url.None? {
      return -1;
    }
    var filename := GetCacheLocation(cacheDir, pkg.url.value);
    pkg.localFilename := Some(filename);
    if cachedOk == 0 {
      return 0;
    }
    var downloaded := DownloadCache(cacheDir, pkg.url.value, downloadErr);
    if downloaded.None? {
      return -1;
    }
    return downloadedOk;
  }
}
