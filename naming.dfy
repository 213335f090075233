/**
 * The name and URL builders of the file service: the extension taken from an
 * uploaded name, the storage name made of a random token, a timestamp and that
 * extension, the CDN URL and the path on the FTP server.
 */
module Naming {
  import opened Base
  import opened JavaStrings

  /**
   * `getFileExtension`: "" for a null or empty name and for a name without a
   * dot; otherwise the suffix that starts at the last dot, dot included.
   */
  function GetFileExtension(fileName: Option<string>): (ext: string)
    ensures fileName.None? || fileName.value == [] ==> ext == []
    ensures fileName.Some? && '.' !in fileName.value ==> ext == []
    ensures fileName.Some? && '.' in fileName.value ==>
              EndsWith(fileName.value, ext) && ext != [] && ext[0] == '.' && '.' !in ext[1..]
  {
    match fileName
    case None => ""
    case Some(name) =>
      if name == [] then ""
      else
        var k := LastIndexOf(name, '.');
        if k == -1 then ""
        else
          assert name[k..][1..] == name[k + 1..];
          name[k..]
  }

  /**
   * The extension is the only suffix of the name that starts with a dot and
   * has no other dot: an independent description of GetFileExtension.
   */
  lemma ExtensionIsOnlyDotSuffix(name: string, e: string)
    requires EndsWith(name, e) && e != [] && e[0] == '.' && '.' !in e[1..]
    ensures GetFileExtension(Some(name)) == e
  {
    var j := |name| - |e|;
    assert name[j] == e[0];
    var k := LastIndexOf(name, '.');
    assert name[k..] == e;
  }

  /** Worked cases: the last dot wins, and a trailing dot is an extension of its own. */
  lemma ExtensionExamples()
    ensures GetFileExtension(Some("a.tar.gz")) == ".gz"
    ensures GetFileExtension(Some("file.")) == "."
    ensures GetFileExtension(Some("README")) == ""
    ensures GetFileExtension(None) == ""
  {
    ExtensionIsOnlyDotSuffix("a.tar.gz", ".gz");
    ExtensionIsOnlyDotSuffix("file.", ".");
  }

  predicate IsHexDigit(c: char) {
    '0' <= c <= '9' || 'a' <= c <= 'f'
  }

  predicate IsDigit(c: char) {
    '0' <= c <= '9'
  }

  /**
   * The random part of a storage name: the first eight characters of a
   * random UUID with its dashes removed, which are lower-case hex digits.
   */
  predicate IsToken(token: string) {
    |token| == 8 && forall i :: 0 <= i < |token| ==> IsHexDigit(token[i])
  }

  /** A clock reading formatted as `yyyyMMddHHmmss`: fourteen digits. */
  predicate IsTimestamp(timestamp: string) {
    |timestamp| == 14 && forall i :: 0 <= i < |timestamp| ==> IsDigit(timestamp[i])
  }

  /**
   * `generateFileName`: token, underscore, timestamp, extension. The token and
   * the timestamp, which the source draws from UUID.randomUUID and
   * LocalDateTime.now, are parameters here.
   */
  function GenerateFileName(token: string, timestamp: string, ext: string): (name: string)
    requires IsToken(token) && IsTimestamp(timestamp)
    ensures |name| == 23 + |ext|
    ensures EndsWith(name, ext)
    ensures StartsWith(name, token) && name[8] == '_'
  {
    token + "_" + timestamp + ext
  }

  /** The three parts of a storage name. */
  datatype StorageName = StorageName(token: string, timestamp: string, ext: string)

  /**
   * Reads a name back as `<8 hex digits>_<14 digits><extension>`, or None
   * when it does not have that shape.
   */
  function ParseStorageName(name: string): (r: Option<StorageName>)
    ensures r.Some? ==> IsToken(r.value.token) && IsTimestamp(r.value.timestamp)
  {
    if |name| >= 23 && IsToken(name[..8]) && name[8] == '_' && IsTimestamp(name[9..23])
    then Some(StorageName(name[..8], name[9..23], name[23..]))
    else None
  }

  /** Every generated name has the documented shape, and its parts can be read back. */
  lemma ParseGenerated(token: string, timestamp: string, ext: string)
    requires IsToken(token) && IsTimestamp(timestamp)
    ensures ParseStorageName(GenerateFileName(token, timestamp, ext)) == Some(StorageName(token, timestamp, ext))
  {
    var name := GenerateFileName(token, timestamp, ext);
    assert name[..8] == token;
    assert name[9..23] == timestamp;
    assert name[23..] == ext;
  }

  /** Every name of the documented shape is the generated name of its parts. */
  lemma GenerateParsed(name: string)
    requires ParseStorageName(name).Some?
    ensures var p := ParseStorageName(name).value;
            GenerateFileName(p.token, p.timestamp, p.ext) == name
  {
    assert name == name[..8] + "_" + name[9..23] + name[23..];
  }

  /**
   * Two generated names collide only when token, timestamp and extension all
   * agree: the same random token drawn in the same second for the same extension.
   */
  lemma NamesCollideOnlyOnEqualParts(t1: string, s1: string, e1: string, t2: string, s2: string, e2: string)
    requires IsToken(t1) && IsTimestamp(s1) && IsToken(t2) && IsTimestamp(s2)
    requires GenerateFileName(t1, s1, e1) == GenerateFileName(t2, s2, e2)
    ensures t1 == t2 && s1 == s2 && e1 == e2
  {
    ParseGenerated(t1, s1, e1);
    ParseGenerated(t2, s2, e2);
  }

  /**
   * The storage name keeps the uploaded name's extension: reading the
   * extension of the generated name gives back the extension it was built from.
   */
  lemma GeneratedNameKeepsExtension(originalName: Option<string>, token: string, timestamp: string)
    requires IsToken(token) && IsTimestamp(timestamp)
    ensures var ext := GetFileExtension(originalName);
            GetFileExtension(Some(GenerateFileName(token, timestamp, ext))) == ext
  {
    var ext := GetFileExtension(originalName);
    var name := GenerateFileName(token, timestamp, ext);
    if ext == [] {
      assert name == token + "_" + timestamp;
      forall i | 0 <= i < |name| ensures name[i] != '.' {
        if i < 8 { assert name[i] == token[i]; }
        else if i > 8 { assert name[i] == timestamp[i - 9]; }
      }
    } else {
      ExtensionIsOnlyDotSuffix(name, ext);
    }
  }

  /**
   * `buildFullUrl`: the prefix, then the file name, with a slash between them
   * added only when the prefix does not already end with one.
   */
  function BuildFullUrl(cdnPrefix: string, fileName: string): (url: string)
    ensures StartsWith(url, cdnPrefix)
    ensures EndsWith(url, "/" + fileName)
    ensures |url| == |cdnPrefix| + |fileName| + (if EndsWith(cdnPrefix, "/") then 0 else 1)
  {
    if EndsWith(cdnPrefix, "/") then
      assert cdnPrefix + fileName == cdnPrefix[..|cdnPrefix| - 1] + ("/" + fileName);
      cdnPrefix + fileName
    else cdnPrefix + "/" + fileName
  }

  /**
   * A prefix with or without its trailing slash yields the same URL: the join
   * never doubles the separator and never omits it.
   */
  lemma TrailingSlashMakesNoDifference(cdnPrefix: string, fileName: string)
    requires !EndsWith(cdnPrefix, "/")
    ensures BuildFullUrl(cdnPrefix + "/", fileName) == BuildFullUrl(cdnPrefix, fileName)
  {
    assert EndsWith(cdnPrefix + "/", "/");
  }

  /** The worked example: a prefix ending in a slash is followed directly by the storage name. */
  lemma UrlExample(storageName: string)
    ensures BuildFullUrl("https://cdn.example.com/", storageName) == "https://cdn.example.com/" + storageName
  {
    assert EndsWith("https://cdn.example.com/", "/");
  }

  /**
   * The path recorded for the FTP copy: base path, one slash, storage name,
   * with no check for a slash already at the end of the base path.
   */
  function FtpPath(basePath: string, fileName: string): (path: string)
    ensures |path| == |basePath| + 1 + |fileName|
    ensures StartsWith(path, basePath) && path[|basePath|] == '/' && EndsWith(path, fileName)
  {
    basePath + "/" + fileName
  }

  /**
   * Unlike the URL, the FTP path is not normalised: the two joins agree
   * exactly when the left part does not already end with a slash.
   */
  lemma FtpPathIsUrlJoinOnlyWithoutTrailingSlash(basePath: string, fileName: string)
    ensures FtpPath(basePath, fileName) == BuildFullUrl(basePath, fileName) <==> !EndsWith(basePath, "/")
  {
    if EndsWith(basePath, "/") {
      assert |FtpPath(basePath, fileName)| != |BuildFullUrl(basePath, fileName)|;
    }
  }
}
