/**
  The format registry of the conversion routes: the table of accepted
  extensions per file category, Python's `str.rsplit(".", 1)` and
  `str.lower()` as the routes use them, the `allowed_file` check and the
  extension extraction of `handle_conversion`.
 */
module Registry {

  /** `ALLOWED_EXTENSIONS`: category name to its accepted extensions. */
  const AllowedExtensions: map<string, seq<string>> := map[
    "json" := ["json"],
    "csv" := ["csv"],
    "markdown" := ["md", "markdown"],
    "docx" := ["docx"],
    "image" := ["jpg", "jpeg", "png", "heic", "webp", "avif"],
    "video" := ["mp4", "avi", "mov", "mkv"],
    "pdf" := ["pdf"]
  ]

  /** `ALLOWED_EXTENSIONS.get(file_type, [])`. */
  function Category(fileType: string): (exts: seq<string>)
    ensures fileType !in AllowedExtensions ==> exts == []
    ensures fileType in AllowedExtensions ==> exts == AllowedExtensions[fileType]
  {
    if fileType in AllowedExtensions then AllowedExtensions[fileType] else []
  }

  predicate IsUpper(c: char) { 'A' <= c <= 'Z' }

  /** Lower-cases one character (ASCII letters only). */
  function LowerChar(c: char): (l: char) {
    if IsUpper(c) then (c as int + 32) as char else c
  }

  /** `str.lower()`, restricted to ASCII letters. */
  function ToLower(s: string): (r: string)
    ensures |r| == |s|
    ensures forall i :: 0 <= i < |r| ==> !IsUpper(r[i])
    ensures forall i :: 0 <= i < |s| && !IsUpper(s[i]) ==> r[i] == s[i]
    ensures forall i :: 0 <= i < |s| && IsUpper(s[i]) ==> r[i] as int == s[i] as int + 32
  {
    seq(|s|, i requires 0 <= i < |s| => LowerChar(s[i]))
  }

  /**
    `s.rsplit(".", 1)`: the whole string when it holds no dot, otherwise the
    text before and the text after its last dot.
   */
  function RSplitDot(s: string): (parts: seq<string>)
    ensures '.' !in s ==> parts == [s]
    ensures '.' in s ==> |parts| == 2 && s == parts[0] + "." + parts[1] && '.' !in parts[1]
  {
    if s == [] then [s]
    else if s[|s| - 1] == '.' then
      assert s == s[..|s| - 1] + "." + "";
      [s[..|s| - 1], ""]
    else
      var init := s[..|s| - 1];
      var p := RSplitDot(init);
      assert s == init + [s[|s| - 1]];
      if |p| == 1 then
        [s]
      else
        assert s == p[0] + "." + (p[1] + [s[|s| - 1]]);
        [p[0], p[1] + [s[|s| - 1]]]
  }

  /** `allowed_file(filename, file_type)`. */
  predicate AllowedFile(filename: string, fileType: string)
    ensures AllowedFile(filename, fileType) ==> '.' in filename && fileType in AllowedExtensions
  {
    '.' in filename && ToLower(RSplitDot(filename)[1]) in Category(fileType)
  }

  /** The extension `handle_conversion` extracts from the sanitised file name. */
  function ExtensionOf(filename: string): (ext: string)
    ensures '.' !in filename ==> ext == ""
    ensures '.' !in ext
    ensures forall i :: 0 <= i < |ext| ==> !IsUpper(ext[i])
  {
    if '.' in filename then
      var last := RSplitDot(filename)[1];
      assert forall i :: 0 <= i < |last| ==> ToLower(last)[i] != '.' by {
        forall i | 0 <= i < |last| ensures ToLower(last)[i] != '.' {
          assert last[i] != '.';
        }
      }
      ToLower(last)
    else ""
  }

  /** `rsplit` splits at the last dot: any split at a dot with no dot after it is that one. */
  lemma RSplitDotUnique(s: string, base: string, ext: string)
    requires s == base + "." + ext && '.' !in ext
    ensures RSplitDot(s) == [base, ext]
  {
    assert s[|base|] == '.';
    var p := RSplitDot(s);
    // both splits sit at the one dot that has no dot after it
    assert s[|p[0]|] == '.' && forall j :: |p[0]| < j < |s| ==> s[j] == p[1][j - |p[0]| - 1];
    assert forall j :: |base| < j < |s| ==> s[j] == ext[j - |base| - 1];
    assert |base| == |p[0]|;
    assert p[1] == s[|s| - |ext|..] == ext;
    assert p[0] == s[..|base|] == base;
  }

  /** `allowed_file` holds iff the name has a dot and its extension is in the category's list. */
  lemma AllowedFileIffExtension(filename: string, fileType: string)
    ensures AllowedFile(filename, fileType) <==> '.' in filename && ExtensionOf(filename) in Category(fileType)
  {
  }

  /**
    For a name written as `base.ext` with no dot in `ext`, `allowed_file`
    depends on the lower-cased `ext` alone, whatever `base` holds.
   */
  lemma AllowedFileOfParts(base: string, ext: string, fileType: string)
    requires '.' !in ext
    ensures AllowedFile(base + "." + ext, fileType) <==> ToLower(ext) in Category(fileType)
  {
    var s := base + "." + ext;
    assert s[|base|] == '.';
    RSplitDotUnique(s, base, ext);
  }

  /** A name without a dot is never allowed. */
  lemma AllowedFileNeedsDot(filename: string, fileType: string)
    requires '.' !in filename
    ensures !AllowedFile(filename, fileType)
  {
  }

  /** A category missing from the registry admits no file at all. */
  lemma UnknownCategoryRejects(filename: string, fileType: string)
    requires fileType !in AllowedExtensions
    ensures !AllowedFile(filename, fileType)
  {
  }

  /** The check ignores letter case in the extension. */
  lemma AllowedFileIgnoresCase(base: string, ext: string, fileType: string)
    requires '.' !in ext
    ensures AllowedFile(base + "." + ext, fileType) <==> AllowedFile(base + "." + ToLower(ext), fileType)
  {
    AllowedFileOfParts(base, ext, fileType);
    assert '.' !in ToLower(ext) by {
      forall i | 0 <= i < |ext| ensures ToLower(ext)[i] != '.' { }
    }
    AllowedFileOfParts(base, ToLower(ext), fileType);
    LowerIdempotent(ext);
  }

  lemma LowerIdempotent(s: string)
    ensures ToLower(ToLower(s)) == ToLower(s)
  {
  }

  /** The extracted extension is the lower-cased text after the last dot, or "" without a dot. */
  lemma ExtensionOfParts(base: string, ext: string)
    requires '.' !in ext
    ensures ExtensionOf(base + "." + ext) == ToLower(ext)
  {
    var s := base + "." + ext;
    assert s[|base|] == '.';
    RSplitDotUnique(s, base, ext);
  }
}
