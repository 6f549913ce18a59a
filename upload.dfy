/**
 * The upload configuration: which mimetypes the file filter admits, the name a
 * stored file receives (a fresh id followed by the original name's extension,
 * by the rule of Node's `path.extname` for POSIX paths), and the public URL of
 * a stored file.
 */
module Upload {
  import opened Wrappers

  const AllowedTypes: seq<string> := ["image/jpeg", "image/png", "image/webp"]

  /** The error message the filter rejects a file with. */
  const FilterMessage: string := "Only .jpeg, .png, and .webp formats allowed"

  const UploadsPath: string := "/uploads/"

  datatype FilterOutcome = Accept | Reject(message: string)

  /** `fileFilter`: admit exactly the three image types. */
  function FileFilter(mimetype: string): (r: FilterOutcome)
    ensures r.Accept? <==> mimetype == "image/jpeg" || mimetype == "image/png" || mimetype == "image/webp"
    ensures r.Reject? ==> r.message == FilterMessage
  {
    if mimetype in AllowedTypes then Accept else Reject(FilterMessage)
  }

  // ---------------------------------------------------------------- public URL

  /** `getImageUrl(filename)` under the configured base URL. */
  function GetImageUrl(baseUrl: string, filename: string): string
  {
    baseUrl + UploadsPath + filename
  }

  /** The file name a URL of this server points at, when it points into the uploads directory. */
  function ImageFilename(baseUrl: string, url: string): Option<string>
  {
    var prefix := baseUrl + UploadsPath;
    if |prefix| <= |url| && url[..|prefix|] == prefix then Some(url[|prefix|..]) else None
  }

  /** The URL names the file it was built from. */
  lemma ImageUrlRoundTrip(baseUrl: string, filename: string)
    ensures ImageFilename(baseUrl, GetImageUrl(baseUrl, filename)) == Some(filename)
  {
    var url := GetImageUrl(baseUrl, filename);
    var prefix := baseUrl + UploadsPath;
    assert url == prefix + filename;
    assert url[..|prefix|] == prefix;
    assert url[|prefix|..] == filename;
  }

  /** Distinct stored files get distinct URLs. */
  lemma ImageUrlInjective(baseUrl: string, f: string, g: string)
    requires GetImageUrl(baseUrl, f) == GetImageUrl(baseUrl, g)
    ensures f == g
  {
    ImageUrlRoundTrip(baseUrl, f);
    ImageUrlRoundTrip(baseUrl, g);
  }

  // ---------------------------------------------------------------- extension of a path

  /** The position of the last `c` in `s`. */
  function LastIndexOf(s: string, c: char): (r: Option<nat>)
    ensures r.Some? ==> r.value < |s| && s[r.value] == c && c !in s[r.value + 1..]
    ensures r.None? ==> c !in s
  {
    if s == [] then None
    else if s[|s| - 1] == c then Some(|s| - 1)
    else
      var r := LastIndexOf(s[..|s| - 1], c);
      assert s == s[..|s| - 1] + [s[|s| - 1]];
      r
  }

  /** The path without its trailing slashes. */
  function StripTrailingSlashes(path: string): (r: string)
    ensures |r| <= |path| && r == path[..|r|]
    ensures r == [] || r[|r| - 1] != '/'
    ensures forall k :: |r| <= k < |path| ==> path[k] == '/'
  {
    if path == [] || path[|path| - 1] != '/' then path else StripTrailingSlashes(path[..|path| - 1])
  }

  /** The last path segment: what follows the last slash once trailing slashes are dropped. */
  function BaseName(path: string): (r: string)
    ensures '/' !in r
  {
    var p := StripTrailingSlashes(path);
    match LastIndexOf(p, '/')
    case None => p
    case Some(k) => p[k + 1..]
  }

  /** Only the last occurrence of `c` has no `c` after it. */
  lemma LastIndexOfAt(s: string, c: char, i: nat)
    requires i < |s| && s[i] == c && c !in s[i + 1..]
    ensures LastIndexOf(s, c) == Some(i)
  {
  }

  /** The extension of one path segment. */
  function ExtOfBase(b: string): (r: string)
    ensures r == [] || (r[0] == '.' && '.' !in r[1..])
    ensures r != [] ==> |r| < |b| && r == b[|b| - |r|..]
  {
    if b == ".." then ""
    else match LastIndexOf(b, '.')
      case None => ""
      case Some(d) => if d == 0 then "" else b[d..]
  }

  /**
   * `path.extname`: from the last dot of the last segment to its end, except
   * that a segment without a dot, one whose only dot opens it, and `..` have none.
   */
  function ExtName(path: string): (r: string)
    ensures r == [] || (r[0] == '.' && '.' !in r[1..] && '/' !in r)
    ensures r != [] ==> |r| < |BaseName(path)| && r == BaseName(path)[|BaseName(path)| - |r|..]
  {
    var b := BaseName(path);
    var r := ExtOfBase(b);
    SuffixAvoids(b, |b| - |r|, '/');
    r
  }

  /** A character absent from a string is absent from each of its suffixes. */
  lemma SuffixAvoids(s: string, i: nat, c: char)
    requires i <= |s| && c !in s
    ensures c !in s[i..]
  {
    assert forall k :: 0 <= k < |s| - i ==> s[i..][k] == s[i + k];
  }

  /** Appending a dotted suffix without slashes extends the last segment. */
  lemma BaseNameOfStemAndExt(stem: string, ext: string)
    requires stem != [] && stem[|stem| - 1] != '/' && '/' !in ext
    ensures BaseName(stem + "." + ext) == BaseName(stem) + "." + ext
    ensures BaseName(stem) != [] && BaseName(stem)[|BaseName(stem)| - 1] == stem[|stem| - 1]
  {
    match LastIndexOf(stem, '/')
    case None => StemWithoutSlash(stem, ext);
    case Some(k) => StemAfterSlash(stem, ext, k);
  }

  lemma StemWithoutSlash(stem: string, ext: string)
    requires stem != [] && '/' !in stem && '/' !in ext
    ensures BaseName(stem + "." + ext) == stem + "." + ext
    ensures BaseName(stem) == stem
  {
    var p := stem + "." + ext;
    assert '/' !in p;
    BaseNameWithoutSlash(stem);
    BaseNameWithoutSlash(p);
  }

  lemma StemAfterSlash(stem: string, ext: string, k: nat)
    requires k < |stem| && stem[k] == '/' && '/' !in stem[k + 1..] && stem[|stem| - 1] != '/' && '/' !in ext
    ensures BaseName(stem + "." + ext) == BaseName(stem) + "." + ext
    ensures BaseName(stem) != [] && BaseName(stem)[|BaseName(stem)| - 1] == stem[|stem| - 1]
  {
    var tail := "." + ext;
    var p := stem + "." + ext;
    assert p == stem + tail;
    assert '/' !in tail;
    assert p[|p| - 1] == tail[|tail| - 1];
    assert p[k] == '/';
    assert p[k + 1..] == stem[k + 1..] + tail;
    BaseNameAfterSlash(stem, k);
    BaseNameAfterSlash(p, k);
    assert BaseName(stem) + tail == BaseName(stem) + "." + ext;
  }

  /** A path without slashes is its own last segment. */
  lemma BaseNameWithoutSlash(p: string)
    requires p != [] && '/' !in p
    ensures BaseName(p) == p
  {
    assert p[|p| - 1] in p;
    NoTrailingSlash(p);
  }

  /** The last segment of a path not ending in a slash is what follows its last slash. */
  lemma BaseNameAfterSlash(p: string, k: nat)
    requires k < |p| && p[k] == '/' && '/' !in p[k + 1..] && p[|p| - 1] != '/'
    ensures BaseName(p) == p[k + 1..]
    ensures BaseName(p) != [] && BaseName(p)[|BaseName(p)| - 1] == p[|p| - 1]
  {
    NoTrailingSlash(p);
    LastIndexOfAt(p, '/', k);
    var b := p[k + 1..];
    assert k + 1 < |p|;
    assert b[|b| - 1] == p[|p| - 1];
  }

  /** A path that does not end in a slash has none to strip. */
  lemma NoTrailingSlash(p: string)
    requires p != [] && p[|p| - 1] != '/'
    ensures StripTrailingSlashes(p) == p
  {
  }

  /** A segment with a non-empty stem keeps the extension after its last dot. */
  lemma ExtOfBaseStemAndExt(s: string, ext: string)
    requires s != [] && s[|s| - 1] != '.' && '.' !in ext
    ensures ExtOfBase(s + "." + ext) == "." + ext
  {
    var b := s + "." + ext;
    var d := |s|;
    assert b[d] == '.' && b[d + 1..] == ext && b[d..] == "." + ext;
    LastIndexOfAt(b, '.', d);
    assert |b| != 2 || b[0] != '.' by {
      if |b| == 2 {
        assert |s| == 1 && b[0] == s[0];
      }
    }
  }

  /** A name with a non-empty stem keeps the extension after its last dot. */
  lemma ExtNameOfStemAndExt(stem: string, ext: string)
    requires stem != [] && stem[|stem| - 1] != '/' && stem[|stem| - 1] != '.' && '/' !in ext && '.' !in ext
    ensures ExtName(stem + "." + ext) == "." + ext
  {
    BaseNameOfStemAndExt(stem, ext);
    ExtOfBaseStemAndExt(BaseName(stem), ext);
  }

  /** `storage.filename`: a fresh id followed by the extension of the client's file name. */
  function StoredFilename(freshId: string, originalName: string): (r: string)
    ensures |r| >= |freshId| && r[..|freshId|] == freshId
  {
    freshId + ExtName(originalName)
  }

  /** With an id made of letters, digits and dashes, the stored file has the original's extension. */
  lemma StoredFilenameKeepsExtension(freshId: string, originalName: string)
    requires freshId != [] && '/' !in freshId && '.' !in freshId
    ensures ExtName(StoredFilename(freshId, originalName)) == ExtName(originalName)
  {
    var e := ExtName(originalName);
    assert freshId[|freshId| - 1] in freshId;
    if e == [] {
      assert StoredFilename(freshId, originalName) == freshId;
      ExtNameOfPlainName(freshId);
    } else {
      ExtNameAppended(freshId, e);
    }
  }

  /** Appending an extension to a plain stem yields a name with that extension. */
  lemma ExtNameAppended(stem: string, e: string)
    requires stem != [] && stem[|stem| - 1] != '/' && stem[|stem| - 1] != '.'
    requires e != [] && e[0] == '.' && '.' !in e[1..] && '/' !in e
    ensures ExtName(stem + e) == e
  {
    assert e == "." + e[1..];
    SuffixAvoids(e, 1, '/');
    assert stem + e == stem + "." + e[1..];
    ExtNameOfStemAndExt(stem, e[1..]);
  }

  /** A name without slashes or dots has no extension. */
  lemma ExtNameOfPlainName(name: string)
    requires name != [] && '/' !in name && '.' !in name
    ensures ExtName(name) == ""
  {
    assert name[|name| - 1] in name;
    assert StripTrailingSlashes(name) == name;
    assert BaseName(name) == name;
  }
}
