/** The image file service: which uploads are accepted, the name and URL an
    upload is stored under, and the web-root-relative path DeleteImageAsync
    derives from an image URL. The file system itself is not modelled; the
    services' decisions about it are. */
module FileService {
  import opened Common

  const AllowedExtensions: seq<string> := [".jpg", ".jpeg", ".png", ".gif", ".webp"]
  const AllowedContentTypes: seq<string> := ["image/jpeg", "image/jpg", "image/png", "image/gif", "image/webp"]
  /** 5 MB */
  const MaxFileSize: int := 5 * 1024 * 1024

  const DefaultBaseUrl := "http://localhost"
  const InvalidImageFile := "Invalid image file. Allowed formats: JPG, JPEG, PNG, GIF, WEBP. Max size: 5MB."
  const ImageUploaded := "Image uploaded successfully"

  /** The parts of an IFormFile the service reads. */
  datatype FormFile = FormFile(fileName: string, contentType: string, length: nat)

  /** The current HTTP request's scheme and host. */
  datatype Request = Request(scheme: string, host: string)

  // ---------------------------------------------------------------------
  // Path.GetExtension, with the Unix directory separator

  /** `path[k..]` is an extension: a dot, at least one more character, and
      no further dot or directory separator. */
  predicate IsExtensionAt(path: string, k: int) {
    && 0 <= k < |path| - 1 && path[k] == '.'
    && forall j | k < j < |path| :: path[j] != '.' && path[j] != '/'
  }

  /** A path has at most one extension. */
  lemma ExtensionAtUnique(path: string, k1: int, k2: int)
    requires IsExtensionAt(path, k1) && IsExtensionAt(path, k2)
    ensures k1 == k2
  {
  }

  /** The backward scan of Path.GetExtension from index `i`, everything after
      which is neither a dot nor a separator. */
  function ScanBack(path: string, i: int): (r: string)
    requires -1 <= i < |path|
    requires forall j | i < j < |path| :: path[j] != '.' && path[j] != '/'
    ensures r != "" ==> |r| <= |path| && IsExtensionAt(path, |path| - |r|) && r == path[|path| - |r|..]
    ensures r == "" ==> forall k :: !IsExtensionAt(path, k)
    decreases i + 1
  {
    if i < 0 then ""
    else if path[i] == '.' then (if i != |path| - 1 then path[i..] else "")
    else if path[i] == '/' then ""
    else ScanBack(path, i - 1)
  }

  /** Path.GetExtension: the extension including its dot, or "" when the last
      path segment has none. */
  function GetExtension(path: string): (r: string)
    ensures r != "" ==> |r| <= |path| && IsExtensionAt(path, |path| - |r|) && r == path[|path| - |r|..]
    ensures r == "" ==> forall k :: !IsExtensionAt(path, k)
  {
    ScanBack(path, |path| - 1)
  }

  /** The extension is exactly the extension-shaped suffix, when there is one. */
  lemma ExtensionIs(path: string, k: int)
    requires IsExtensionAt(path, k)
    ensures GetExtension(path) == path[k..]
  {
    var r := GetExtension(path);
    ExtensionAtUnique(path, k, |path| - |r|);
  }

  /** Lower-casing changes no dot and no separator, and creates none. */
  lemma LowerKeepsPunctuation(c: char)
    ensures LowerChar(c) == '.' <==> c == '.'
    ensures LowerChar(c) == '/' <==> c == '/'
    ensures LowerChar(c) == ':' <==> c == ':'
  {
  }

  lemma ExtensionAtLower(path: string, k: int)
    ensures IsExtensionAt(ToLower(path), k) <==> IsExtensionAt(path, k)
  {
    var lower := ToLower(path);
    forall j | 0 <= j < |path|
      ensures (lower[j] == '.' <==> path[j] == '.') && (lower[j] == '/' <==> path[j] == '/')
    {
      LowerKeepsPunctuation(path[j]);
    }
  }

  /** Lower-casing a path and taking its extension commute. */
  lemma ExtensionOfLower(path: string)
    ensures GetExtension(ToLower(path)) == ToLower(GetExtension(path))
  {
    var e := GetExtension(path);
    if e == "" {
      forall k
        ensures !IsExtensionAt(ToLower(path), k)
      {
        ExtensionAtLower(path, k);
      }
    } else {
      var k := |path| - |e|;
      ExtensionAtLower(path, k);
      ExtensionIs(ToLower(path), k);
      assert ToLower(path)[k..] == ToLower(path[k..]);
    }
  }

  // ---------------------------------------------------------------------
  // IsValidImageFile

  /** IsValidImageFile: a non-empty file of at most 5 MB whose lower-cased
      extension and content type are both on the allow-lists. */
  function IsValidImageFile(file: Option<FormFile>): (ok: bool)
    ensures ok ==> file.Some? && 0 < file.value.length <= MaxFileSize
    ensures ok ==> ToLower(GetExtension(file.value.fileName)) in AllowedExtensions
    ensures ok ==> ToLower(file.value.contentType) in AllowedContentTypes
  {
    if file.None? || file.value.length == 0 || file.value.length > MaxFileSize then false
    else
      var extension := ToLower(GetExtension(file.value.fileName));
      extension in AllowedExtensions && ToLower(file.value.contentType) in AllowedContentTypes
  }

  /** The file checks ignore case in the name and in the content type. */
  lemma ValidityIgnoresCase(f: FormFile)
    ensures IsValidImageFile(Some(f)) ==
            IsValidImageFile(Some(f.(fileName := ToLower(f.fileName), contentType := ToLower(f.contentType))))
  {
    ExtensionOfLower(f.fileName);
    ToLowerIdempotent(GetExtension(f.fileName));
    ToLowerIdempotent(f.contentType);
  }

  /** Every accepted file has an image name: its lower-cased name ends in
      one of the allowed extensions. */
  lemma AcceptedNameIsImage(f: FormFile)
    requires IsValidImageFile(Some(f))
    ensures exists e | e in AllowedExtensions :: |e| <= |f.fileName| && ToLower(f.fileName)[|f.fileName| - |e|..] == e
  {
    var e := GetExtension(f.fileName);
    var k := |f.fileName| - |e|;
    assert ToLower(f.fileName)[k..] == ToLower(f.fileName[k..]);
    assert ToLower(e) in AllowedExtensions && |ToLower(e)| <= |f.fileName|;
  }

  /** Every accepted file declares an image content type. */
  lemma AcceptedTypeIsImage(f: FormFile)
    requires IsValidImageFile(Some(f))
    ensures StartsWith(ToLower(f.contentType), "image/")
  {
    var t := ToLower(f.contentType);
    assert t == "image/jpeg" || t == "image/jpg" || t == "image/png" || t == "image/gif" || t == "image/webp";
  }

  // ---------------------------------------------------------------------
  // Names and URLs

  /** GetBaseUrl: the request's scheme and host, or "http://localhost"
      outside a request. */
  function GetBaseUrl(request: Option<Request>): (r: string)
    ensures request.None? ==> r == DefaultBaseUrl
    ensures ':' in r
  {
    match request
    case None => DefaultBaseUrl
    case Some(req) =>
      var r := req.scheme + "://" + req.host;
      assert r[|req.scheme|] == ':';
      r
  }

  /** Path.Combine("uploads", folder, fileName) with the Unix separator: where
      UploadImageAsync writes the file, under the web root. */
  function UploadPath(folder: string, fileName: string): string {
    "uploads/" + folder + "/" + fileName
  }

  /** GetImageUrl: the public URL of an uploaded file, the base URL followed
      by "/uploads/<folder>/<fileName>". */
  function GetImageUrl(request: Option<Request>, folder: string, fileName: string): (r: string)
    ensures StartsWith(r, GetBaseUrl(request))
  {
    GetBaseUrl(request) + "/" + UploadPath(folder, fileName)
  }

  /** Guid.ToString(): hexadecimal digits and hyphens. */
  predicate IsGuidText(g: string) {
    forall i | 0 <= i < |g| :: '0' <= g[i] <= '9' || 'a' <= g[i] <= 'f' || g[i] == '-'
  }

  /** The name an upload is stored under: a fresh Guid followed by the
      original extension, lower-cased. */
  function UploadFileName(guid: string, originalName: string): (r: string)
    ensures StartsWith(r, guid) && r[|guid|..] == ToLower(GetExtension(originalName))
  {
    guid + ToLower(GetExtension(originalName))
  }

  /** The stored name has the original file's extension, lower-cased. */
  lemma UploadKeepsExtension(guid: string, originalName: string)
    requires IsGuidText(guid)
    ensures GetExtension(UploadFileName(guid, originalName)) == ToLower(GetExtension(originalName))
  {
    var e := GetExtension(originalName);
    var name := UploadFileName(guid, originalName);
    if e == "" {
      assert name == guid;
      forall k
        ensures !IsExtensionAt(name, k)
      {
        if 0 <= k < |name| {
          assert name[k] == guid[k];
        }
      }
    } else {
      ExtensionOfLower(originalName);
      var k := |originalName| - |e|;
      ExtensionAtLower(originalName, k);
      assert IsExtensionAt(ToLower(originalName), k);
      var lower := ToLower(e);
      assert lower == ToLower(originalName)[k..];
      forall j | |guid| < j < |name|
        ensures name[j] != '.' && name[j] != '/'
      {
        assert name[j] == ToLower(originalName)[k + (j - |guid|)];
      }
      assert IsExtensionAt(name, |guid|);
      ExtensionIs(name, |guid|);
    }
  }

  /** UploadImageAsync without the file system: the accepted file's URL, under
      the given fresh Guid; the write that may throw is not modelled. */
  function UploadImage(request: Option<Request>, file: Option<FormFile>, folder: string, guid: string)
    : (r: Response<string>)
    ensures !IsValidImageFile(file) ==> r == Failure(InvalidImageFile)
    ensures IsValidImageFile(file) ==>
      && r.success && r.message == ImageUploaded && r.data.Some?
      && exists e | e in AllowedExtensions :: r.data.value == GetBaseUrl(request) + "/" + UploadPath(folder, guid + e)
  {
    if !IsValidImageFile(file) then Failure(InvalidImageFile)
    else
      var fileName := UploadFileName(guid, file.value.fileName);
      var e := ToLower(GetExtension(file.value.fileName));
      assert e in AllowedExtensions && fileName == guid + e;
      Success(ImageUploaded, GetImageUrl(request, folder, fileName))
  }

  /** An accepted upload is stored under an allowed extension. */
  lemma UploadedNameIsAllowed(file: FormFile, guid: string)
    requires IsGuidText(guid) && IsValidImageFile(Some(file))
    ensures GetExtension(UploadFileName(guid, file.fileName)) in AllowedExtensions
  {
    UploadKeepsExtension(guid, file.fileName);
  }

  // ---------------------------------------------------------------------
  // string.Replace(old, "") and string.TrimStart(c)

  predicate OccursAt(s: string, pat: string, i: int) {
    0 <= i && i + |pat| <= |s| && s[i..i + |pat|] == pat
  }

  /** string.Replace(pat, ""): every occurrence of `pat` found scanning left
      to right, without overlaps, is removed. */
  function RemoveAll(s: string, pat: string): (r: string)
    requires |pat| > 0
    ensures |r| <= |s|
    decreases |s|
  {
    if |s| < |pat| then s
    else if s[..|pat|] == pat then RemoveAll(s[|pat|..], pat)
    else [s[0]] + RemoveAll(s[1..], pat)
  }

  /** With nothing to remove, Replace leaves the string alone. */
  lemma {:induction false} RemoveAllAbsent(s: string, pat: string)
    requires |pat| > 0
    requires forall i :: !OccursAt(s, pat, i)
    ensures RemoveAll(s, pat) == s
  {
    if |s| >= |pat| {
      assert !OccursAt(s, pat, 0);
      forall i
        ensures !OccursAt(s[1..], pat, i)
      {
        if OccursAt(s[1..], pat, i) {
          assert s[1..][i..i + |pat|] == s[i + 1..i + 1 + |pat|];
          assert OccursAt(s, pat, i + 1);
        }
      }
      RemoveAllAbsent(s[1..], pat);
      assert s == [s[0]] + s[1..];
    }
  }

  /** A string holding a character that `t` lacks does not occur in `t`. */
  lemma AbsentBySeparator(t: string, pat: string, c: char)
    requires c in pat && c !in t
    ensures forall i :: !OccursAt(t, pat, i)
  {
    var m :| 0 <= m < |pat| && pat[m] == c;
    forall i
      ensures !OccursAt(t, pat, i)
    {
      if 0 <= i && i + |pat| <= |t| {
        assert t[i..i + |pat|][m] == t[i + m];
        assert t[i + m] in t;
      }
    }
  }

  /** Removing a prefix's every occurrence from the prefix followed by a
      string it does not occur in leaves that string. */
  lemma RemoveAllAfterPrefix(prefix: string, t: string)
    requires |prefix| > 0
    requires forall i :: !OccursAt(t, prefix, i)
    ensures RemoveAll(prefix + t, prefix) == t
  {
    var s := prefix + t;
    assert s[..|prefix|] == prefix && s[|prefix|..] == t;
    RemoveAllAbsent(t, prefix);
  }

  /** string.TrimStart(c): the leading copies of `c` are dropped. */
  function TrimStart(s: string, c: char): (r: string)
    ensures |r| <= |s| && r == s[|s| - |r|..]
    ensures r == [] || r[0] != c
    ensures forall i | 0 <= i < |s| - |r| :: s[i] == c
  {
    if s != [] && s[0] == c then TrimStart(s[1..], c) else s
  }

  // ---------------------------------------------------------------------
  // DeleteImageAsync

  /** What DeleteImageAsync does: its response, and the path under the web
      root whose file it deletes if that file exists (None: nothing on disk
      is looked at). */
  datatype DeleteOutcome = DeleteOutcome(response: Response<bool>, relativePath: Option<string>)

  /** The response of every path that does not throw: success and `true`;
      the message is left unset. */
  const Deleted: Response<bool> := Response(true, "", [], Some(true))

  /** DeleteImageAsync */
  function DeleteImage(request: Option<Request>, imageUrl: Option<string>): (r: DeleteOutcome)
    ensures r.response == Deleted
    ensures r.relativePath.Some? <==> !IsNullOrEmpty(imageUrl) && StartsWith(imageUrl.value, GetBaseUrl(request))
    ensures r.relativePath.Some? ==>
      r.relativePath.value == TrimStart(RemoveAll(imageUrl.value, GetBaseUrl(request)), '/')
  {
    if IsNullOrEmpty(imageUrl) then DeleteOutcome(Deleted, None)
    else
      var baseUrl := GetBaseUrl(request);
      if !StartsWith(imageUrl.value, baseUrl) then DeleteOutcome(Deleted, None)
      else DeleteOutcome(Deleted, Some(TrimStart(RemoveAll(imageUrl.value, baseUrl), '/')))
  }

  /** Replace and TrimStart take a base URL and the slash after it off the
      front of a URL whose path cannot hold the base. */
  lemma RelativePathOf(baseUrl: string, path: string)
    requires ':' in baseUrl && ':' !in path && path != [] && path[0] != '/'
    ensures TrimStart(RemoveAll(baseUrl + ("/" + path), baseUrl), '/') == path
  {
    var tail := "/" + path;
    assert ':' !in tail;
    AbsentBySeparator(tail, baseUrl, ':');
    RemoveAllAfterPrefix(baseUrl, tail);
    assert tail[1..] == path;
  }

  /** The URL of a stored image leads DeleteImageAsync back to the file the
      upload wrote, `uploads/<folder>/<fileName>` under the web root, as long
      as neither part holds a ':' (which every base URL does). */
  lemma DeleteFindsImage(request: Option<Request>, folder: string, fileName: string)
    requires ':' !in folder && ':' !in fileName
    ensures DeleteImage(request, Some(GetImageUrl(request, folder, fileName))).relativePath
            == Some(UploadPath(folder, fileName))
  {
    var path := UploadPath(folder, fileName);
    assert ':' !in path && path[0] == 'u';
    assert GetImageUrl(request, folder, fileName) == GetBaseUrl(request) + ("/" + path);
    RelativePathOf(GetBaseUrl(request), path);
  }

  /** Uploading and then deleting by the returned URL targets the stored file. */
  lemma UploadThenDelete(request: Option<Request>, file: FormFile, folder: string, guid: string)
    requires IsGuidText(guid) && ':' !in folder && IsValidImageFile(Some(file))
    ensures var up := UploadImage(request, Some(file), folder, guid);
      up.success && DeleteImage(request, up.data).relativePath
        == Some(UploadPath(folder, UploadFileName(guid, file.fileName)))
  {
    var fileName := UploadFileName(guid, file.fileName);
    var e := ToLower(GetExtension(file.fileName));
    assert e in AllowedExtensions;
    assert ':' !in e;
    assert ':' !in fileName by {
      forall i | 0 <= i < |fileName|
        ensures fileName[i] != ':'
      {
        if i < |guid| {
          assert fileName[i] == guid[i];
        } else {
          assert fileName[i] == e[i - |guid|];
        }
      }
    }
    DeleteFindsImage(request, folder, fileName);
  }

  /** Outside the web root's own URLs nothing is deleted. */
  lemma ForeignUrlIgnored(request: Option<Request>, url: string)
    requires !StartsWith(url, GetBaseUrl(request))
    ensures DeleteImage(request, Some(url)).relativePath.None?
  {
  }
}
