/**
 * Where `downloadFile` keeps a downloaded resource: the documents directory,
 * the md5 key of the URL string, and the URL's path extension.
 */
module Cache {
  import opened Wrappers
  import opened Md5Hex

  type Path = string

  /**
   * The Foundation and CommonCrypto services the cache relies on, as functions
   * of their inputs: CC_MD5 of a string, whether `URL(string:)` accepts it,
   * the URL's `pathExtension`, and the documents directory (None when
   * FileManager throws while locating it).
   */
  datatype Platform = Platform(
    ccMd5: string -> Digest,
    parsesAsUrl: string -> bool,
    pathExtension: string -> string,
    documents: Option<Path>)

  /** Both force-unwraps in `downloadFile` succeed, so a cache path exists. */
  predicate CanResolve(p: Platform, url: string) {
    p.documents.Some? && p.parsesAsUrl(url)
  }

  /** `appendingPathComponent(key).appendingPathExtension(ext)` on a directory. */
  function SavedUnder(documents: Path, key: string, ext: string): (path: Path) {
    documents + "/" + key + "." + ext
  }

  /**
   * The cache path of `url`: the 32-character lowercase key sits right after
   * `<documents>/`, is followed by a dot and the extension, and decodes back
   * to the URL string's digest.
   */
  function CachePath(p: Platform, url: string): (r: Path)
    requires p.documents.Some?
    ensures var d := |p.documents.value|;
            && |r| == d + 2 * DigestLength + 2 + |p.pathExtension(url)|
            && r[..d] == p.documents.value && r[d] == '/'
            && IsLowerHex(r[d + 1..d + 33]) && HexDecode(r[d + 1..d + 33]) == Some(p.ccMd5(url))
            && r[d + 33] == '.' && r[d + 34..] == p.pathExtension(url)
  {
    var key := HexEncode(p.ccMd5(url));
    DecodeEncode(p.ccMd5(url));
    var r := SavedUnder(p.documents.value, key, p.pathExtension(url));
    var d := |p.documents.value|;
    assert r[d + 1..d + 33] == key;
    r
  }

  /** URL strings with different digests are cached at different paths. */
  lemma DistinctDigestsDistinctPaths(p: Platform, u1: string, u2: string)
    requires p.documents.Some?
    requires p.ccMd5(u1) != p.ccMd5(u2)
    ensures CachePath(p, u1) != CachePath(p, u2)
  {
  }
}
