/**
 * The admin audio uploader: the checks on a selected file, the sanitised storage name and
 * path, and the state the upload's outcome leaves behind.
 */
module AudioUpload {
  import opened Wrappers
  import opened JsStrings

  /** The selected `File`: its name, its MIME `type` and its size in bytes. */
  datatype FileInfo = FileInfo(name: string, mimeType: string, size: nat)

  /** `10 * 1024 * 1024`. */
  const MaxUploadBytes: nat := 10485760

  const NotAudio := "Please select an audio file"
  const TooLarge := "File size must be less than 10MB"
  const UploadFailed := "Upload failed. Please try again."
  const UrlFailed := "Failed to get file URL"

  /** Why a selected file is refused before any upload; the type is checked first. */
  function SelectionError(file: FileInfo): (r: Option<string>)
    ensures r == Some(NotAudio) <==> !StartsWith(file.mimeType, "audio/")
    ensures r == Some(TooLarge) <==> StartsWith(file.mimeType, "audio/") && file.size > MaxUploadBytes
    ensures r.None? <==> StartsWith(file.mimeType, "audio/") && file.size <= MaxUploadBytes
  {
    if !StartsWith(file.mimeType, "audio/") then Some(NotAudio)
    else if file.size > MaxUploadBytes then Some(TooLarge)
    else None
  }

  /** The boundary: exactly 10 MiB passes, one byte more does not. */
  lemma SizeLimitBoundary(name: string)
    ensures SelectionError(FileInfo(name, "audio/mpeg", 10485760)).None?
    ensures SelectionError(FileInfo(name, "audio/mpeg", 10485761)) == Some(TooLarge)
  {
    assert StartsWith("audio/mpeg", "audio/");
  }

  // ---------------------------------------------------------------- file name

  /** The characters `/[^a-zA-Z0-9.-]/` does not match. */
  predicate Allowed(c: char) {
    ('a' <= c <= 'z') || ('A' <= c <= 'Z') || ('0' <= c <= '9') || c == '.' || c == '-'
  }

  /** The output alphabet `[A-Za-z0-9._-]`. */
  predicate StorageSafe(c: char) {
    Allowed(c) || c == '_'
  }

  /** The replacement for one character. Without the `u` flag the pattern matches UTF-16
      code units, so a character outside the Basic Multilingual Plane becomes two `_`. */
  function CleanChar(c: char): (r: string)
    ensures |r| == CodeUnits(c)
    ensures Allowed(c) ==> r == [c]
    ensures !Allowed(c) ==> forall k :: 0 <= k < |r| ==> r[k] == '_'
  {
    if Allowed(c) then [c] else if c as int > 0xFFFF then "__" else "_"
  }

  /** `name.replace(/[^a-zA-Z0-9.-]/g, '_')`. */
  function CleanFileName(s: string): string {
    if s == [] then [] else CleanFileName(s[..|s| - 1]) + CleanChar(s[|s| - 1])
  }

  lemma {:induction false} CleanConcat(a: string, b: string)
    ensures CleanFileName(a + b) == CleanFileName(a) + CleanFileName(b)
  {
    if b == [] {
      assert a + b == a;
    } else {
      var n := |b| - 1;
      assert (a + b)[..|a + b| - 1] == a + b[..n];
      CleanConcat(a, b[..n]);
    }
  }

  /** The cleaned name has as many characters as the name has UTF-16 code units, every one
      of them storage-safe. */
  lemma {:induction false} CleanLengthAndAlphabet(s: string)
    ensures |CleanFileName(s)| == Utf16Length(s)
    ensures forall k :: 0 <= k < |CleanFileName(s)| ==> StorageSafe(CleanFileName(s)[k])
  {
    if s != [] {
      var pre := s[..|s| - 1];
      CleanLengthAndAlphabet(pre);
      var r := CleanFileName(s);
      var c := CleanChar(s[|s| - 1]);
      assert r == CleanFileName(pre) + c;
      forall k | 0 <= k < |r| ensures StorageSafe(r[k]) {
        if k >= |CleanFileName(pre)| {
          assert r[k] == c[k - |CleanFileName(pre)|];
        }
      }
    }
  }

  /** Position by position in UTF-16 units: the code units of character i are replaced by
      its cleaning, so an allowed character stays exactly where it was. */
  lemma CleanInPlace(s: string, i: nat)
    requires i < |s|
    ensures var at := Utf16Length(s[..i]);
            && at + CodeUnits(s[i]) <= |CleanFileName(s)|
            && CleanFileName(s)[at..at + CodeUnits(s[i])] == CleanChar(s[i])
            && (Allowed(s[i]) ==> CleanFileName(s)[at] == s[i])
  {
    assert s == s[..i] + [s[i]] + s[i + 1..];
    CleanConcat(s[..i] + [s[i]], s[i + 1..]);
    CleanConcat(s[..i], [s[i]]);
    CleanLengthAndAlphabet(s[..i]);
    assert CleanFileName([s[i]]) == CleanChar(s[i]) by {
      assert [s[i]][..0] == [];
    }
  }

  lemma CleanCharIdempotent(c: char)
    ensures CleanFileName(CleanChar(c)) == CleanChar(c)
  {
    var r := CleanChar(c);
    if |r| == 1 {
      assert r[..0] == [];
    } else {
      assert r == "__" && r[..1] == "_";
      assert CleanFileName("_") == "_" by {
        assert "_"[..0] == [];
      }
    }
  }

  /** Cleaning a cleaned name changes nothing. */
  lemma {:induction false} CleanIdempotent(s: string)
    ensures CleanFileName(CleanFileName(s)) == CleanFileName(s)
  {
    if s != [] {
      var pre := s[..|s| - 1];
      CleanIdempotent(pre);
      CleanConcat(CleanFileName(pre), CleanChar(s[|s| - 1]));
      CleanCharIdempotent(s[|s| - 1]);
    }
  }

  // ---------------------------------------------------------------- storage path

  /** `${folder}/${timestamp}_${cleanFileName}`. */
  function StoragePath(folder: string, timestamp: nat, name: string): string {
    folder + "/" + NatToString(timestamp) + "_" + CleanFileName(name)
  }

  lemma StoragePathSuffix(folder: string, t: nat, n: string)
    ensures var p := StoragePath(folder, t, n);
            && folder + "/" <= p
            && p[|folder| + 1..] == NatToString(t) + ("_" + CleanFileName(n))
  {
  }

  lemma StoragePathInFolder(folder: string, t: nat, n: string)
    ensures var p := StoragePath(folder, t, n);
            && folder + "/" <= p
            && '/' !in p[|folder| + 1..]
  {
    StoragePathSuffix(folder, t, n);
    var r := NatToString(t) + ("_" + CleanFileName(n));
    CleanLengthAndAlphabet(n);
    assert '/' !in r by {
      forall k | 0 <= k < |r| ensures r[k] != '/' {
        if k > |NatToString(t)| {
          assert r[k] == CleanFileName(n)[k - |NatToString(t)| - 1];
        }
      }
    }
  }

  /** The object lands directly inside `folder`, and its name tells the timestamp and the
      cleaned name apart: two uploads at different times never share a path. */
  lemma StoragePathParts(folder: string, t1: nat, n1: string, t2: nat, n2: string)
    ensures var p := StoragePath(folder, t1, n1);
            && folder + "/" <= p
            && '/' !in p[|folder| + 1..]
    ensures StoragePath(folder, t1, n1) == StoragePath(folder, t2, n2) ==>
              t1 == t2 && CleanFileName(n1) == CleanFileName(n2)
  {
    StoragePathInFolder(folder, t1, n1);
    StoragePathSuffix(folder, t1, n1);
    StoragePathSuffix(folder, t2, n2);
    if StoragePath(folder, t1, n1) == StoragePath(folder, t2, n2) {
      DigitsThenSuffix(NatToString(t1), "_" + CleanFileName(n1), NatToString(t2), "_" + CleanFileName(n2));
      NatToStringInjective(t1, t2);
      assert CleanFileName(n1) == ("_" + CleanFileName(n1))[1..];
      assert CleanFileName(n2) == ("_" + CleanFileName(n2))[1..];
    }
  }

  // ---------------------------------------------------------------- upload

  /** What the completion callback receives: the ORIGINAL name, not the cleaned one. */
  datatype UploadResult = UploadResult(url: string, fileName: string, storagePath: string, size: nat, mimeType: string)

  /** How the upload of a valid file ends: `uploadBytesResumable` throws at once, the
      transfer reports an error, the download URL cannot be read, or it completes. */
  datatype UploadOutcome = StartThrew | TransferFailed | UrlLookupFailed | Completed(url: string)

  function ResultFor(file: FileInfo, folder: string, timestamp: nat, url: string): (r: UploadResult)
    ensures r.fileName == file.name && r.size == file.size && r.mimeType == file.mimeType
    ensures r.storagePath == StoragePath(folder, timestamp, file.name) && r.url == url
  {
    UploadResult(url, file.name, StoragePath(folder, timestamp, file.name), file.size, file.mimeType)
  }

  /** The error message an outcome leaves. */
  function OutcomeError(outcome: UploadOutcome): (r: string)
    ensures r == "" <==> outcome.Completed?
  {
    match outcome
    case StartThrew => UploadFailed
    case TransferFailed => UploadFailed
    case UrlLookupFailed => UrlFailed
    case Completed(_) => ""
  }

  class AudioUploader {
    const folder: string
    /** Whether an `onUploadComplete` callback was passed. */
    const notify: bool
    var uploading: bool
    /** Percent; the intermediate readings of the transfer are not modelled. */
    var progress: nat
    var error: string
    var fileName: string

    constructor(folder: string, notify: bool)
      ensures this.folder == folder && this.notify == notify
      ensures !uploading && progress == 0 && error == "" && fileName == ""
    {
      this.folder := folder;
      this.notify := notify;
      uploading := false;
      progress := 0;
      error := "";
      fileName := "";
    }

    /** `handleFileSelect` followed by the upload it starts. `now` is `Date.now()` and
        `outcome` is how the upload ends; `path` is the storage path an upload was started
        for, and `completed` what the callback received. */
    method HandleFileSelect(file: Option<FileInfo>, now: nat, outcome: UploadOutcome)
      returns (path: Option<string>, completed: Option<UploadResult>)
      modifies this
      ensures file.None? ==>
        && path.None? && completed.None?
        && uploading == old(uploading) && progress == old(progress)
        && error == old(error) && fileName == old(fileName)
      ensures file.Some? && SelectionError(file.value).Some? ==>
        && path.None? && completed.None? && error == SelectionError(file.value).value
        && uploading == old(uploading) && progress == old(progress) && fileName == old(fileName)
      ensures file.Some? && SelectionError(file.value).None? ==>
        && fileName == file.value.name
        && path == Some(StoragePath(folder, now, file.value.name))
        && !uploading
        && error == OutcomeError(outcome)
        && progress == (if outcome.Completed? then 100 else 0)
        && completed == (if outcome.Completed? && notify then Some(ResultFor(file.value, folder, now, outcome.url)) else None)
    {
      path := None;
      completed := None;
      if file.None? {
        return;
      }
      var f := file.value;
      var invalid := SelectionError(f);
      if invalid.Some? {
        error := invalid.value;
        return;
      }
      error := "";
      fileName := f.name;
      path, completed := UploadFile(f, now, outcome);
    }

    method UploadFile(f: FileInfo, now: nat, outcome: UploadOutcome)
      returns (path: Option<string>, completed: Option<UploadResult>)
      requires error == ""
      modifies this
      ensures fileName == old(fileName)
      ensures path == Some(StoragePath(folder, now, f.name))
      ensures !uploading
      ensures error == OutcomeError(outcome)
      ensures progress == (if outcome.Completed? then 100 else 0)
      ensures completed == (if outcome.Completed? && notify then Some(ResultFor(f, folder, now, outcome.url)) else None)
    {
      uploading := true;
      progress := 0;
      var storagePath := folder + "/" + NatToString(now) + "_" + CleanFileName(f.name);
      path := Some(storagePath);
      completed := None;
      match outcome {
        case StartThrew =>
          error := UploadFailed;
          uploading := false;
        case TransferFailed =>
          error := UploadFailed;
          uploading := false;
        case UrlLookupFailed =>
          error := UrlFailed;
          uploading := false;
        case Completed(url) =>
          uploading := false;
          progress := 100;
          if notify {
            completed := Some(UploadResult(url, f.name, storagePath, f.size, f.mimeType));
          }
      }
    }

    method ResetUpload()
      modifies this
      ensures fileName == "" && progress == 0 && error == "" && !uploading
    {
      fileName := "";
      progress := 0;
      error := "";
      uploading := false;
    }
  }
}
