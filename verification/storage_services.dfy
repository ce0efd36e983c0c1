/** The upload helpers of lib/storage-services.ts: file classification, the
    size check, the requests sent to the media host, the sequential batch
    upload, and the public-id derivation used to delete an image.

    The media host is an oracle: each request gets an `HttpResponse`, and the
    batch takes the replies to its requests in the order they are sent.
    Environment variables are an `Env` value. */
module StorageServices {
  import opened EventTypes

  datatype File = File(name: string, mime: string, size: nat)

  datatype FileType = ImageFile | VideoFile | UnknownFile

  /** 10 MB and 100 MB in the source's binary sense. */
  const ImageMaxBytes: nat := 10 * 1024 * 1024
  const OtherMaxBytes: nat := 100 * 1024 * 1024

  /** `NEXT_PUBLIC_CLOUDINARY_CLOUD_NAME`, `…_UPLOAD_PRESET`, `…_API_KEY`. */
  datatype Env = Env(cloudName: Option<string>, uploadPreset: Option<string>, apiKey: Option<string>)

  /** A variable spliced into a template literal: an unset one reads "undefined". */
  function InTemplate(v: Option<string>): string {
    if v.Some? then v.value else "undefined"
  }

  /** `process.env.X || ""`. */
  function OrEmpty(v: Option<string>): string {
    if v.Some? then v.value else ""
  }

  // ---------------------------------------------------------------------
  // Classification and size

  /** `getFileType`: by the declared content type's prefix, images first. */
  function GetFileType(f: File): (t: FileType)
    ensures t == ImageFile <==> "image/" <= f.mime
    ensures t == VideoFile <==> "video/" <= f.mime
    ensures t == UnknownFile <==> !("image/" <= f.mime) && !("video/" <= f.mime)
  {
    MimePrefixesExclusive(f.mime);
    if "image/" <= f.mime then ImageFile
    else if "video/" <= f.mime then VideoFile
    else UnknownFile
  }

  /** No content type starts with both "image/" and "video/". */
  lemma MimePrefixesExclusive(mime: string)
    ensures !("image/" <= mime && "video/" <= mime)
  {
    if "image/" <= mime {
      assert mime[0] == "image/"[0];
    }
  }

  /** The cap `validateFileSize` applies: 10 MB for images, 100 MB for
      everything else, unknown types included. */
  function MaxSize(t: FileType): (n: nat)
    ensures t == ImageFile ==> n == 10_485_760
    ensures t != ImageFile ==> n == 104_857_600
  {
    if t == ImageFile then ImageMaxBytes else OtherMaxBytes
  }

  datatype Validation = Validation(valid: bool, message: Option<string>)

  /** `validateFileSize`: a size equal to the cap passes, a larger one is
      rejected with a message naming the cap. */
  function ValidateFileSize(f: File): (v: Validation)
    ensures v.valid <==> f.size <= MaxSize(GetFileType(f))
    ensures v.valid <==> v.message.None?
    ensures !v.valid ==> v.message == Some("File size exceeds " + (if "image/" <= f.mime then "10MB" else "100MB")
                                          + ". Please choose a smaller file.")
  {
    var fileType := GetFileType(f);
    var maxSize := MaxSize(fileType);
    if f.size > maxSize then
      var maxSizeMB := if fileType == ImageFile then "10MB" else "100MB";
      Validation(false, Some("File size exceeds " + maxSizeMB + ". Please choose a smaller file."))
    else
      Validation(true, None)
  }

  /** The boundary cases: an image one byte over 10 MB is rejected naming
      "10MB"; a video of exactly 100 MB and an image of exactly 10 MB pass;
      an unknown type of 50 MB passes. */
  lemma SizeBoundaries(name: string)
    ensures var v := ValidateFileSize(File(name, "image/png", 10 * 1024 * 1024 + 1));
      !v.valid && v.message.Some? && v.message.value[18..22] == "10MB"
    ensures ValidateFileSize(File(name, "image/jpeg", 10 * 1024 * 1024)).valid
    ensures ValidateFileSize(File(name, "video/mp4", 100 * 1024 * 1024)).valid
    ensures !ValidateFileSize(File(name, "video/mp4", 100 * 1024 * 1024 + 1)).valid
    ensures ValidateFileSize(File(name, "application/pdf", 50 * 1024 * 1024)).valid
  {
    var msg := "File size exceeds " + "10MB" + ". Please choose a smaller file.";
    assert msg[18..22] == "10MB";
  }

  // ---------------------------------------------------------------------
  // Single uploads

  datatype UploadRequest = UploadRequest(
    endpoint: string,
    file: File,
    uploadPreset: string,
    folder: string,
    resourceType: Option<string>)

  /** The host's reply: a status with an optional `secure_url` in the body,
      or a failure to reach the host or read its body. */
  datatype HttpResponse = Response(ok: bool, status: int, secureUrl: Option<string>) | NetworkError

  /** The caught error: the status message thrown for a non-2xx reply, or
      whatever `fetch`/`json()` threw. */
  datatype UploadError = StatusError(status: int) | FetchError

  datatype UploadResult = UploadResult(success: bool, url: Option<string>, error: Option<UploadError>)

  const CloudinaryApi := "https://api.cloudinary.com/v1_1/"
  const FolderRoot := "khalid-lifestyle/"

  /** What `uploadImage` posts: into the folder named after the event. */
  function ImageUploadRequest(f: File, eventId: string, env: Env): (q: UploadRequest)
    ensures q.folder == "khalid-lifestyle/" + eventId
    ensures q.endpoint == "https://api.cloudinary.com/v1_1/" + InTemplate(env.cloudName) + "/image/upload"
    ensures q.file == f && q.resourceType == None && q.uploadPreset == OrEmpty(env.uploadPreset)
  {
    UploadRequest(CloudinaryApi + InTemplate(env.cloudName) + "/image/upload", f,
                  OrEmpty(env.uploadPreset), FolderRoot + eventId, None)
  }

  /** What `uploadVideo` posts: into the event folder's `videos` subfolder,
      marked as a video resource. */
  function VideoUploadRequest(f: File, eventId: string, env: Env): (q: UploadRequest)
    ensures q.folder == "khalid-lifestyle/" + eventId + "/videos"
    ensures q.endpoint == "https://api.cloudinary.com/v1_1/" + InTemplate(env.cloudName) + "/video/upload"
    ensures q.file == f && q.resourceType == Some("video") && q.uploadPreset == OrEmpty(env.uploadPreset)
  {
    UploadRequest(CloudinaryApi + InTemplate(env.cloudName) + "/video/upload", f,
                  OrEmpty(env.uploadPreset), FolderRoot + eventId + "/videos", Some("video"))
  }

  /** How `uploadImage` and `uploadVideo` read the reply to their request:
      success with the returned `secure_url` (which may be absent) for a 2xx
      reply, otherwise failure carrying the caught error. */
  function UploadResultOf(response: HttpResponse): (r: UploadResult)
    ensures r.success <==> response.Response? && response.ok
    ensures r.success ==> r.url == response.secureUrl && r.error.None?
    ensures !r.success ==> r.url.None? && r.error.Some?
    ensures response.Response? && !response.ok ==> r.error == Some(StatusError(response.status))
  {
    match response
    case NetworkError => UploadResult(false, None, Some(FetchError))
    case Response(ok, status, secureUrl) =>
      if ok then UploadResult(true, secureUrl, None)
      else UploadResult(false, None, Some(StatusError(status)))
  }

  /** `result.success && result.url`: an absent or empty URL is falsy. */
  predicate Uploaded(r: UploadResult) {
    r.success && r.url.Some? && r.url.value != ""
  }

  // ---------------------------------------------------------------------
  // Batch upload

  /** The URLs the batch collects from the replies, in reply order. */
  function UrlsOf(responses: seq<HttpResponse>): (r: seq<string>)
    ensures |r| <= |responses|
  {
    if responses == [] then []
    else
      var r := UploadResultOf(responses[|responses| - 1]);
      UrlsOf(responses[..|responses| - 1]) + (if Uploaded(r) then [r.url.value] else [])
  }

  /** The error payloads the batch collects; `None` is JavaScript's
      `undefined`, pushed for a success that carried no usable URL. */
  function ErrorsOf(responses: seq<HttpResponse>): (r: seq<Option<UploadError>>)
    ensures |r| <= |responses|
  {
    if responses == [] then []
    else
      var r := UploadResultOf(responses[|responses| - 1]);
      ErrorsOf(responses[..|responses| - 1]) + (if Uploaded(r) then [] else [r.error])
  }

  datatype BatchResult = BatchResult(success: bool, urls: seq<string>, errors: Option<seq<Option<UploadError>>>)

  /** Every reply lands in exactly one of the two lists. */
  lemma {:induction false} BatchPartition(responses: seq<HttpResponse>)
    ensures |UrlsOf(responses)| + |ErrorsOf(responses)| == |responses|
    ensures |ErrorsOf(responses)| == 0 <==> forall i :: 0 <= i < |responses| ==> Uploaded(UploadResultOf(responses[i]))
    decreases |responses|
  {
    if responses != [] {
      var init := responses[..|responses| - 1];
      BatchPartition(init);
      assert forall i :: 0 <= i < |init| ==> init[i] == responses[i];
    }
  }

  /** The URLs collected from the first `k` replies come first among all the
      URLs, so each URL keeps the place of its file. */
  lemma {:induction false} UrlsAreSuccessfulInOrder(responses: seq<HttpResponse>, k: nat)
    requires k <= |responses|
    ensures UrlsOf(responses[..k]) <= UrlsOf(responses)
    decreases |responses| - k
  {
    if k < |responses| {
      UrlsAreSuccessfulInOrder(responses, k + 1);
      assert responses[..k + 1][..k] == responses[..k];
    } else {
      assert responses[..k] == responses;
    }
  }

  /** A URL is collected exactly when some file's upload succeeded with it
      as a usable URL. */
  lemma {:induction false} UrlsAreUsable(responses: seq<HttpResponse>)
    ensures forall u :: u in UrlsOf(responses) <==>
              exists i :: 0 <= i < |responses| && Uploaded(UploadResultOf(responses[i]))
                          && u == UploadResultOf(responses[i]).url.value
    decreases |responses|
  {
    if responses != [] {
      var init, n := responses[..|responses| - 1], |responses| - 1;
      UrlsAreUsable(init);
      forall u | u in UrlsOf(responses)
        ensures exists i :: 0 <= i < |responses| && Uploaded(UploadResultOf(responses[i]))
                            && u == UploadResultOf(responses[i]).url.value
      {
        if u in UrlsOf(init) {
          var i :| 0 <= i < |init| && Uploaded(UploadResultOf(init[i])) && u == UploadResultOf(init[i]).url.value;
          assert init[i] == responses[i];
        } else {
          assert Uploaded(UploadResultOf(responses[n])) && u == UploadResultOf(responses[n]).url.value;
        }
      }
      forall u, i | 0 <= i < |responses| && Uploaded(UploadResultOf(responses[i]))
                    && u == UploadResultOf(responses[i]).url.value
        ensures u in UrlsOf(responses)
      {
        if i < n {
          assert init[i] == responses[i];
        }
      }
    }
  }

  /** One more reply adds at most one URL or one error, at the end. */
  lemma BatchStep(responses: seq<HttpResponse>, i: nat)
    requires i < |responses|
    ensures var r := UploadResultOf(responses[i]);
      && UrlsOf(responses[..i + 1]) == UrlsOf(responses[..i]) + (if Uploaded(r) then [r.url.value] else [])
      && ErrorsOf(responses[..i + 1]) == ErrorsOf(responses[..i]) + (if Uploaded(r) then [] else [r.error])
  {
    assert responses[..i + 1][..i] == responses[..i];
  }

  /** The progress calls for one more file. */
  lemma ProgressStep(i: nat, n: nat)
    ensures seq(i + 1, k => (k + 1, n)) == seq(i, k => (k + 1, n)) + [(i + 1, n)]
  {
  }

  /** `uploadMultipleImages`: one `uploadImage` per file, strictly in input
      order, reporting progress after each attempt. `responses[i]` is the
      host's reply to the i-th request; `sent` and `progress` record the
      requests made and the `onProgress(current, total)` calls. */
  method UploadMultipleImages(files: seq<File>, eventId: string, env: Env, responses: seq<HttpResponse>,
                              hasProgress: bool)
    returns (result: BatchResult, sent: seq<UploadRequest>, progress: seq<(nat, nat)>)
    requires |responses| == |files|
    ensures |sent| == |files| && forall i :: 0 <= i < |files| ==> sent[i] == ImageUploadRequest(files[i], eventId, env)
    ensures progress == if hasProgress then seq(|files|, i => (i + 1, |files|)) else []
    ensures result.urls == UrlsOf(responses)
    ensures result.success <==> |ErrorsOf(responses)| == 0
    ensures result.errors == if result.success then None else Some(ErrorsOf(responses))
  {
    var urls: seq<string> := [];
    var errors: seq<Option<UploadError>> := [];
    sent, progress := [], [];
    var i := 0;
    while i < |files|
      invariant 0 <= i <= |files|
      invariant |sent| == i && forall k :: 0 <= k < i ==> sent[k] == ImageUploadRequest(files[k], eventId, env)
      invariant progress == if hasProgress then seq(i, k => (k + 1, |files|)) else []
      invariant urls == UrlsOf(responses[..i])
      invariant errors == ErrorsOf(responses[..i])
    {
      sent := sent + [ImageUploadRequest(files[i], eventId, env)];
      var r := UploadResultOf(responses[i]);
      BatchStep(responses, i);
      if Uploaded(r) {
        urls := urls + [r.url.value];
      } else {
        errors := errors + [r.error];
      }
      if hasProgress {
        ProgressStep(i, |files|);
        progress := progress + [(i + 1, |files|)];
      }
      i := i + 1;
    }
    assert responses[..i] == responses;
    result := BatchResult(|errors| == 0, urls, if |errors| > 0 then Some(errors) else None);
  }

  /** Three files whose second upload fails: overall failure, the first and
      third URLs in order, one error for the second. */
  lemma SecondOfThreeFails(u1: string, u3: string, status: int)
    requires u1 != "" && u3 != ""
    ensures var responses := [Response(true, 200, Some(u1)), Response(false, status, None), Response(true, 200, Some(u3))];
      && UrlsOf(responses) == [u1, u3]
      && ErrorsOf(responses) == [Some(StatusError(status))]
  {
    var responses := [Response(true, 200, Some(u1)), Response(false, status, None), Response(true, 200, Some(u3))];
    var one, two := responses[..1], responses[..2];
    assert one[..0] == [] && two[..1] == one && responses[..2] == two;
    assert UrlsOf(one) == [u1] && ErrorsOf(one) == [];
    assert UrlsOf(two) == [u1] && ErrorsOf(two) == [Some(StatusError(status))];
  }

  // ---------------------------------------------------------------------
  // Deleting an image

  /** `s.split(sep)` for a one-character separator: never empty, and no
      piece contains the separator. */
  function Split(s: string, sep: char): (parts: seq<string>)
    ensures |parts| >= 1
    ensures forall i :: 0 <= i < |parts| ==> sep !in parts[i]
  {
    if s == [] then [""]
    else if s[0] == sep then [""] + Split(s[1..], sep)
    else
      var rest := Split(s[1..], sep);
      [[s[0]] + rest[0]] + rest[1..]
  }

  /** `parts.join(sep)`. */
  function Join(parts: seq<string>, sep: string): string {
    if parts == [] then ""
    else if |parts| == 1 then parts[0]
    else parts[0] + sep + Join(parts[1..], sep)
  }

  /** Joining the pieces of a split gives the string back. */
  lemma {:induction false} JoinSplit(s: string, sep: char)
    ensures Join(Split(s, sep), [sep]) == s
  {
    if s != [] {
      var rest := Split(s[1..], sep);
      JoinSplit(s[1..], sep);
      if s[0] == sep {
        assert Split(s, sep) == [""] + rest;
        assert Join([""] + rest, [sep]) == "" + [sep] + Join(rest, [sep]);
      } else {
        var parts := Split(s, sep);
        assert parts == [[s[0]] + rest[0]] + rest[1..];
        if |rest| == 1 {
          assert Join(parts, [sep]) == [s[0]] + rest[0];
        } else {
          assert parts[1..] == rest[1..];
          assert Join(parts, [sep]) == [s[0]] + rest[0] + [sep] + Join(rest[1..], [sep]);
        }
      }
    }
  }

  /** The first piece of a split is the prefix before the first separator. */
  lemma {:induction false} FirstPieceIsPrefix(s: string, sep: char)
    ensures var p := Split(s, sep)[0];
      && p <= s && sep !in p
      && (|p| < |s| ==> s[|p|] == sep)
  {
    if s != [] && s[0] != sep {
      FirstPieceIsPrefix(s[1..], sep);
    }
  }

  /** `urlParts.slice(-3, -1)` on a non-empty list. */
  function FolderParts(parts: seq<string>): (r: seq<string>)
    requires |parts| >= 1
    ensures |parts| >= 3 ==> r == [parts[|parts| - 3], parts[|parts| - 2]]
    ensures |parts| < 3 ==> r == parts[..|parts| - 1]
  {
    var n := |parts|;
    parts[if n >= 3 then n - 3 else 0 .. n - 1]
  }

  /** The public id `deleteImage` derives from an image URL. */
  function PublicId(imageUrl: string): string {
    var urlParts := Split(imageUrl, '/');
    var fileName := Split(urlParts[|urlParts| - 1], '.')[0];
    var folderPath := Join(FolderParts(urlParts), "/");
    folderPath + "/" + fileName
  }

  /** For a URL of three or more segments the public id is the two segments
      before the last, then the file stem (the last segment cut at its first
      "."; see `FirstPieceIsPrefix`), joined by "/". Shorter URLs lose the
      missing folder segments. */
  lemma PublicIdShape(imageUrl: string)
    ensures var parts := Split(imageUrl, '/');
      var n := |parts|;
      var stem := Split(parts[n - 1], '.')[0];
      && (n >= 3 ==> PublicId(imageUrl) == parts[n - 3] + "/" + parts[n - 2] + "/" + stem)
      && (n == 2 ==> PublicId(imageUrl) == parts[0] + "/" + stem)
      && (n == 1 ==> PublicId(imageUrl) == "/" + stem)
  {
    var parts := Split(imageUrl, '/');
    var n := |parts|;
    var f := FolderParts(parts);
    if n >= 3 {
      assert f[1..] == [parts[n - 2]];
      assert Join(f, "/") == parts[n - 3] + "/" + parts[n - 2];
    } else if n == 2 {
      assert Join(f, "/") == parts[0];
    } else {
      assert Join(f, "/") == "";
    }
  }

  /** What `deleteImage` posts to the host's destroy endpoint. */
  datatype DestroyRequest = DestroyRequest(endpoint: string, publicId: string, apiKey: string, signature: string)

  function DestroyRequestFor(imageUrl: string, env: Env): (q: DestroyRequest)
    ensures q.publicId == PublicId(imageUrl) && q.signature == ""
    ensures q.endpoint == "https://api.cloudinary.com/v1_1/" + InTemplate(env.cloudName) + "/image/destroy"
  {
    DestroyRequest(CloudinaryApi + InTemplate(env.cloudName) + "/image/destroy",
                   PublicId(imageUrl), OrEmpty(env.apiKey), "")
  }

  datatype DeleteResult = DeleteResult(success: bool, error: Option<UploadError>)

  /** How `deleteImage` reads the reply: only a 2xx reply is success. */
  function DeleteImageResult(response: HttpResponse): (r: DeleteResult)
    ensures r.success <==> response.Response? && response.ok
    ensures r.success <==> r.error.None?
  {
    match response
    case NetworkError => DeleteResult(false, Some(FetchError))
    case Response(ok, status, _) => if ok then DeleteResult(true, None) else DeleteResult(false, Some(StatusError(status)))
  }
}
