/** The attachment-naming scheme: the path and extension helpers of Python's
    `posixpath` used by the upload handlers, the composition of stored
    filenames from a random token, and the derivation of the display name
    from a stored filename. */
module Naming {
  import opened Wrappers

  /** Index of the last occurrence of `c` in `s`, or -1 (Python's `str.rfind`). */
  function LastIndexOf(s: string, c: char): (r: int)
    ensures -1 <= r < |s|
    ensures r >= 0 ==> s[r] == c
    ensures forall i :: r < i < |s| ==> s[i] != c
  {
    if s == [] then -1
    else if s[|s| - 1] == c then |s| - 1
    else LastIndexOf(s[..|s| - 1], c)
  }

  /** Index of the first occurrence of `c` in `s`, or -1 (Python's `str.find`). */
  function IndexOf(s: string, c: char): (r: int)
    ensures -1 <= r < |s|
    ensures r >= 0 ==> s[r] == c
    ensures forall i :: 0 <= i < |s| && (r < 0 || i < r) ==> s[i] != c
  {
    if s == [] then -1
    else if s[0] == c then 0
    else
      var k := IndexOf(s[1..], c);
      if k < 0 then -1 else k + 1
  }

  /** `os.path.basename` on POSIX: everything after the last '/'. */
  function Basename(p: string): (r: string)
    ensures '/' !in r
    ensures |r| <= |p| && r == p[|p| - |r|..]
    ensures |r| < |p| ==> p[|p| - |r| - 1] == '/'
    ensures '/' !in p ==> r == p
  {
    p[LastIndexOf(p, '/') + 1..]
  }

  /** True if some character strictly between positions `lo` and `hi` of `p`
      is not a dot. */
  predicate HasNonDotBetween(p: string, lo: int, hi: int)
    requires -1 <= lo && hi <= |p|
  {
    exists i :: lo < i < hi && p[i] != '.'
  }

  /** `os.path.splitext` on POSIX: split at the last dot of the last path
      component, unless everything in that component before the dot is a dot
      (so ".bashrc" and "..a" have no extension). */
  function SplitExt(p: string): (r: (string, string))
    ensures r.0 + r.1 == p
    ensures r.1 != "" ==> r.1[0] == '.' && '.' !in r.1[1..] && '/' !in r.1
    ensures r.1 != "" ==> HasNonDotBetween(p, LastIndexOf(p, '/'), |r.0|)
    ensures r.1 == "" ==>
      forall i, j :: LastIndexOf(p, '/') < i < j < |p| && p[j] == '.' ==> p[i] == '.'
  {
    var sep := LastIndexOf(p, '/');
    var dot := LastIndexOf(p, '.');
    if dot > sep && HasNonDotBetween(p, sep, dot) then
      assert forall i :: 0 <= i < |p| - dot - 1 ==> p[dot..][1..][i] == p[dot + 1 + i];
      (p[..dot], p[dot..])
    else
      (p, "")
  }

  /** The `.jpe` fix applied to `mimetypes.guess_extension(...) or ""`. */
  function NormalizeExt(guessed: Option<string>): (ext: string)
    ensures ext != ".jpe"
    ensures guessed == Some(".jpe") ==> ext == ".jpg"
    ensures guessed.None? ==> ext == ""
    ensures guessed.Some? && guessed.value != ".jpe" ==> ext == guessed.value
  {
    var e := if guessed.Some? then guessed.value else "";
    if e == ".jpe" then ".jpg" else e
  }

  /** The extension guessed from a content type; `guess` stands for
      `mimetypes.guess_extension`, which the model leaves uninterpreted. */
  function GuessExt(guess: string -> Option<string>, contentType: string): (ext: string)
    ensures ext != ".jpe"
  {
    NormalizeExt(guess(contentType))
  }

  /** The text after the first '_', or the whole string when there is none
      (`s.split("_", 1)` and picking the second part when there are two). */
  function AfterFirstUnderscore(s: string): (r: string)
    ensures '_' !in s ==> r == s
    ensures '_' in s ==>
      exists k :: 0 <= k < |s| && s[k] == '_' && '_' !in s[..k] && r == s[k + 1..]
  {
    var k := IndexOf(s, '_');
    if k < 0 then s
    else
      assert forall i :: 0 <= i < k ==> s[..k][i] == s[i];
      s[k + 1..]
  }

  /** The `original_filename` the listing derives from a stored filename:
      absent when there is no filename (NULL or empty, both falsy in Python),
      else the text after the first underscore. */
  function DisplayName(filename: Option<string>): (r: Option<string>)
    ensures r.None? <==> filename.None? || filename.value == ""
    ensures r.Some? ==> r.value == AfterFirstUnderscore(filename.value)
  {
    if filename.None? || filename.value == "" then None
    else Some(AfterFirstUnderscore(filename.value))
  }

  /** The token `uuid.uuid4().hex` yields: 32 lower-case hexadecimal digits. */
  predicate IsHexToken(t: string) {
    |t| == 32 && forall i :: 0 <= i < |t| ==> t[i] in "0123456789abcdef"
  }

  lemma HexTokenIsPlain(t: string)
    requires IsHexToken(t)
    ensures '_' !in t && '/' !in t && '.' !in t
  {
  }

  /** Prefixing a name with an underscore-free token and '_' is undone by the
      display-name derivation. */
  lemma {:induction false} DisplayNameRoundTrip(token: string, name: string)
    requires '_' !in token
    ensures DisplayName(Some(token + "_" + name)) == Some(name)
  {
    var s := token + "_" + name;
    assert s[|token|] == '_';
    assert s[..|token|] == token;
    var k := IndexOf(s, '_');
    assert k == |token|;
    assert s[k + 1..] == name;
  }

  /** The name the multipart upload keeps as the original: the `X-Filename`
      header when set and non-empty, else the upload's own name, reduced to
      its basename. */
  function MultipartOriginalName(xFilename: Option<string>, uploadName: string): (r: string)
    ensures '/' !in r
    ensures xFilename.Some? && xFilename.value != "" ==> r == Basename(xFilename.value)
    ensures xFilename.None? || xFilename.value == "" ==> r == Basename(uploadName)
  {
    Basename(if xFilename.Some? && xFilename.value != "" then xFilename.value else uploadName)
  }

  /** The stored filename of a multipart upload: `{token}_{original}`. */
  function MultipartStoredName(token: string, original: string): (r: string)
    ensures |r| == |token| + 1 + |original|
    ensures r[..|token|] == token && r[|token|] == '_' && r[|token| + 1..] == original
  {
    token + "_" + original
  }

  /** The stored multipart filename decodes back to the original name and
      contains no path separator. */
  lemma MultipartNameRoundTrip(token: string, xFilename: Option<string>, uploadName: string)
    requires '_' !in token && '/' !in token
    ensures var original := MultipartOriginalName(xFilename, uploadName);
      && DisplayName(Some(MultipartStoredName(token, original))) == Some(original)
      && '/' !in MultipartStoredName(token, original)
  {
    DisplayNameRoundTrip(token, MultipartOriginalName(xFilename, uploadName));
  }

  /** The stored filename of a direct-body upload. With a non-empty
      `X-Filename` it is `{token}_{base}{ext}`, where `base`/`ext` split the
      header's basename and `ext` falls back to the content type's guess when
      empty; without one it is `{token}{guessed ext}`. */
  function DirectStoredName(
    token: string, xFilename: Option<string>, contentType: string,
    guess: string -> Option<string>): (r: string)
    ensures xFilename.None? || xFilename.value == "" ==>
      r == token + GuessExt(guess, contentType)
  {
    if xFilename.Some? && xFilename.value != "" then
      var parts := SplitExt(Basename(xFilename.value));
      var ext := if parts.1 == "" then GuessExt(guess, contentType) else parts.1;
      token + "_" + (parts.0 + ext)
    else
      token + GuessExt(guess, contentType)
  }

  /** The extension a direct-body upload with a non-empty `X-Filename`
      appends to the header's basename: the content type's guess when the
      basename has no extension of its own, else nothing. */
  function AddedExt(safe: string, contentType: string, guess: string -> Option<string>): (ext: string)
    ensures ext != ".jpe"
    ensures SplitExt(safe).1 != "" ==> ext == ""
  {
    if SplitExt(safe).1 == "" then GuessExt(guess, contentType) else ""
  }

  /** Filling in a missing extension after splitting is the same as
      appending it to the unsplit name. */
  lemma SplitExtRejoin(safe: string, guessed: string)
    ensures var parts := SplitExt(safe);
      parts.0 + (if parts.1 == "" then guessed else parts.1)
      == safe + (if parts.1 == "" then guessed else "")
  {
    var parts := SplitExt(safe);
    if parts.1 == "" {
      assert parts.0 == safe;
    } else {
      assert safe + "" == safe;
    }
  }

  /** With a non-empty `X-Filename`, the stored name is the token, '_', and
      the header's basename, followed by the guessed extension exactly when
      the basename has none. */
  lemma DirectNameWithHeader(
    token: string, xFilename: string, contentType: string,
    guess: string -> Option<string>)
    requires xFilename != ""
    ensures DirectStoredName(token, Some(xFilename), contentType, guess)
      == token + "_" + (Basename(xFilename) + AddedExt(Basename(xFilename), contentType, guess))
  {
    var safe := Basename(xFilename);
    var parts := SplitExt(safe);
    var guessed := GuessExt(guess, contentType);
    var ext := if parts.1 == "" then guessed else parts.1;
    SplitExtRejoin(safe, guessed);
    assert parts.0 + ext == safe + AddedExt(safe, contentType, guess);
  }

  /** The display name of a direct-body upload with a non-empty `X-Filename`
      is the header's basename, with the guessed extension when it had none. */
  lemma DirectNameDisplay(
    token: string, xFilename: string, contentType: string,
    guess: string -> Option<string>)
    requires '_' !in token
    requires xFilename != ""
    ensures DisplayName(Some(DirectStoredName(token, Some(xFilename), contentType, guess)))
      == Some(Basename(xFilename) + AddedExt(Basename(xFilename), contentType, guess))
  {
    DirectNameWithHeader(token, xFilename, contentType, guess);
    DisplayNameRoundTrip(token, Basename(xFilename) + AddedExt(Basename(xFilename), contentType, guess));
  }

  /** The example of an upload with no declared name and an image/jpeg body:
      whichever of .jpe or .jpg the MIME table yields, the stored name ends
      in .jpg. */
  lemma JpegUploadGetsJpg(token: string, guess: string -> Option<string>)
    requires guess("image/jpeg") in {Some(".jpe"), Some(".jpg")}
    ensures DirectStoredName(token, None, "image/jpeg", guess) == token + ".jpg"
  {
  }

  /** The example of a multipart upload declared as "report.pdf": the
      listing shows "report.pdf" again. */
  lemma ReportPdfRoundTrip(token: string, uploadName: string)
    requires '_' !in token
    ensures DisplayName(Some(MultipartStoredName(token,
      MultipartOriginalName(Some("report.pdf"), uploadName)))) == Some("report.pdf")
  {
    var p := "report.pdf";
    assert '/' !in p;
    assert MultipartOriginalName(Some(p), uploadName) == p;
    DisplayNameRoundTrip(token, p);
  }

  /** Splitting "report.pdf" gives base "report" and extension ".pdf". */
  lemma ReportPdfSplit()
    ensures SplitExt("report.pdf") == ("report", ".pdf")
  {
    var p := "report.pdf";
    assert p[..6] == "report" && p[6..] == ".pdf";
    assert LastIndexOf(p, '.') == 6 by {
      assert p[6] == '.';
      assert forall i :: 6 < i < |p| ==> p[i] != '.';
    }
    assert LastIndexOf(p, '/') == -1 by {
      assert '/' !in p;
    }
    assert p[0] != '.';
    assert HasNonDotBetween(p, -1, 6);
  }
}
