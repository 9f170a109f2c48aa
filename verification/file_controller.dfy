/**
 `FileController` of `src/file/file.controller.ts`: the upload pipeline (multer
 disk storage, then validation, then the service's `create`), and the rules
 that decide which endpoints count a view and when NotFound is raised.
 */
module FileController {
  import opened Common
  import opened Strings
  import FS = FileService

  /** `MaxFileSizeValidator({maxSize: 15 * 1024 * 1024})`. */
  const MaxUploadSize: nat := 15 * 1024 * 1024

  const OctetStream: string := "application/octet-stream"
  const FileNotFound: string := "File not found"
  const FileNotFoundOnDisk: string := "File not found on disk"

  /** What multer hands over for the `file` field. */
  datatype UploadedFile = UploadedFile(originalname: string, mimetype: string, size: nat)

  /** A streamed response: the blob read, its content type and its `Content-Disposition`. */
  datatype Served = Served(path: string, contentType: string, disposition: string)

  /** `ValidationFailed` is `ParseFilePipe` rejecting the upload; `Internal` an unclassified exception. */
  datatype ApiError = NotFound(message: string) | ValidationFailed | Internal

  /** The url an upload is recorded under. */
  function UploadUrl(userId: string, name: string): string
  {
    "/file/" + userId + "/" + name
  }

  /** The directory multer's `destination` callback picks. */
  function UploadDestination(userId: string): string
  {
    "./file/" + userId
  }

  /** Where multer writes the blob: `path.join(destination, originalname)`, without its leading `./`. */
  function StoredPath(userId: string, name: string): string
  {
    "file/" + userId + "/" + name
  }

  /** A path relative to the working directory, with a leading `./` dropped. */
  function Relative(path: string): string
  {
    if StartsWith(path, "./") then path[2..] else path
  }

  /** The path `downloadFile` and `serveFile` read: `.${file.url}`. */
  function ReadPath(url: string): string
  {
    Relative("." + url)
  }

  /** Multer's destination joined with the file name is the url read as a relative path. */
  lemma DestinationIsDottedUrl(userId: string, name: string)
    ensures UploadDestination(userId) + "/" + name == "." + UploadUrl(userId, name)
  {
    assert "./file/" + userId == "." + ("/file/" + userId);
  }

  lemma ReadPathOfUpload(userId: string, name: string)
    ensures ReadPath(UploadUrl(userId, name)) == StoredPath(userId, name)
  {
    var dotted := "." + UploadUrl(userId, name);
    var stored := StoredPath(userId, name);
    assert dotted == "./" + stored;
    assert dotted[..2] == "./";
    assert dotted[2..] == stored;
  }

  lemma BlobPathOfUpload(userId: string, name: string)
    ensures FS.BlobPath(UploadUrl(userId, name)) == StoredPath(userId, name)
  {
    var url := UploadUrl(userId, name);
    var rest := userId + "/" + name;
    assert url == "/file/" + rest;
    assert url[..6] == "/file/";
    assert url[6..] == rest;
  }

  /**
   Multer's location, the path the read endpoints open and the path `delete`
   removes all name the same file for an uploaded url.
   */
  lemma UploadPathsAgree(userId: string, name: string)
    ensures UploadDestination(userId) + "/" + name == "." + UploadUrl(userId, name)
    ensures ReadPath(UploadUrl(userId, name)) == StoredPath(userId, name)
    ensures FS.BlobPath(UploadUrl(userId, name)) == StoredPath(userId, name)
  {
    DestinationIsDottedUrl(userId, name);
    ReadPathOfUpload(userId, name);
    BlobPathOfUpload(userId, name);
  }

  /** `FileTypeValidator({fileType: /(image|video|application\/pdf)/})`: an unanchored match. */
  predicate AcceptedType(mimetype: string)
  {
    Contains(mimetype, "image") || Contains(mimetype, "video") || Contains(mimetype, "application/pdf")
  }

  /** The `tags` body field, `''` when absent, split on commas. */
  function ParseTags(body: Option<string>): (r: seq<string>)
    ensures |r| == multiset(body.GetOr(""))[','] + 1
    ensures forall k :: 0 <= k < |r| ==> ',' !in r[k]
    ensures Join(r, ',') == body.GetOr("")
    ensures body.None? ==> r == [""]
  {
    JoinSplit(body.GetOr(""), ',');
    Split(body.GetOr(""), ',')
  }

  /**
   `uploadFile`: a request without a `file` part is rejected by `ParseFilePipe`
   (`fileIsRequired` defaults to true) with nothing written. Otherwise multer
   has written the blob before the validators run, so a rejected upload still
   leaves it on disk. An accepted one is recorded with its url and its
   comma-split tags; the mime type is passed but not stored.
   */
  function UploadFile(s: FS.Store, userId: string, file: Option<UploadedFile>, tags: Option<string>, newId: FS.FileId)
    : (r: (Result<FS.FileRecord, ApiError>, FS.Store))
    requires newId !in s.files
    ensures file.None? ==> r == (Err(ValidationFailed), s)
    ensures file.Some? ==> r.1.disk == s.disk + {StoredPath(userId, file.value.originalname)}
    ensures r.0.Ok? <==> file.Some? && file.value.size < MaxUploadSize && AcceptedType(file.value.mimetype)
    ensures r.0.Err? ==> r.0.error == ValidationFailed && r.1.files == s.files
    ensures r.0.Ok? ==>
      && r.1.files.Keys == s.files.Keys + {newId}
      && FS.OthersUnchanged(s.files, r.1.files, newId)
      && r.1.files[newId] == r.0.value
      && r.0.value.name == file.value.originalname
      && r.0.value.userId == userId
      && r.0.value.url == UploadUrl(userId, file.value.originalname)
      && r.0.value.tags == ParseTags(tags)
      && r.0.value.mimeType == None
      && r.0.value.views == 0
  {
    match file
    case None => (Err(ValidationFailed), s)
    case Some(f) =>
      var disk := s.disk + {StoredPath(userId, f.originalname)};
      if !(f.size < MaxUploadSize) || !AcceptedType(f.mimetype) then
        (Err(ValidationFailed), FS.Store(s.files, disk))
      else
        var url := UploadUrl(userId, f.originalname);
        var args := FS.CreateArgs(f.originalname, url, userId, Some(f.mimetype), Some(ParseTags(tags)));
        var (files, record) := FS.Create(s.files, args, newId);
        (Ok(record), FS.Store(files, disk))
  }

  /** `updateTags`: the caller's id is not consulted. */
  function UpdateTags(s: FS.Store, callerId: string, id: FS.FileId, tags: Option<seq<string>>)
    : (r: (Result<FS.FileRecord, ApiError>, FS.Store))
    ensures r.0.Ok? <==> id in s.files
    ensures r.0.Err? ==> r.0.error == Internal && r.1 == s
    ensures r.0.Ok? ==>
      && r.1 == FS.Store(s.files[id := r.0.value], s.disk)
      && r.0.value == s.files[id].(tags := tags.GetOr(s.files[id].tags))
  {
    var (result, files) := FS.UpdateTags(s.files, id, tags);
    match result
    case Err(_) => (Err(Internal), s)
    case Ok(record) => (Ok(record), FS.Store(files, s.disk))
  }

  /** `deleteFile`: the caller's id is not consulted. */
  function DeleteFile(s: FS.Store, callerId: string, id: FS.FileId): (r: (Option<FS.FileRecord>, FS.Store))
    ensures r.0.Some? <==> id in s.files
    ensures r.0.None? ==> r.1 == s
    ensures r.0.Some? ==>
      && r.0.value == s.files[id]
      && r.1.files == s.files - {id}
      && r.1.disk == s.disk - {FS.BlobPath(s.files[id].url)}
  {
    var r := FS.Delete(s, id);
    assert r.0.Some? ==> r.1.files == s.files - {id};
    r
  }

  /**
   `downloadFile`: NotFound for a missing row or a missing blob, otherwise an
   octet-stream attachment named after the file. The view count never moves.
   */
  function DownloadFile(s: FS.Store, callerId: string, id: FS.FileId): (r: (Result<Served, ApiError>, FS.Store))
    ensures r.1 == s
    ensures r.0.Ok? <==> id in s.files && ReadPath(s.files[id].url) in s.disk
    ensures id !in s.files ==> r.0 == Err(NotFound(FileNotFound))
    ensures id in s.files && ReadPath(s.files[id].url) !in s.disk ==> r.0 == Err(NotFound(FileNotFoundOnDisk))
    ensures r.0.Ok? ==>
      && r.0.value.path == ReadPath(s.files[id].url)
      && r.0.value.contentType == OctetStream
      && r.0.value.disposition == "attachment; filename=\"" + s.files[id].name + "\""
  {
    match FS.FindOne(s.files, id)
    case None => (Err(NotFound(FileNotFound)), s)
    case Some(file) =>
      var path := ReadPath(file.url);
      if path !in s.disk then (Err(NotFound(FileNotFoundOnDisk)), s)
      else (Ok(Served(path, OctetStream, "attachment; filename=\"" + file.name + "\"")), s)
  }

  /**
   `getFile` as written: NotFound for a missing row; otherwise one view is
   counted, and the row as it was read BEFORE the increment is returned.
   */
  function GetFile(s: FS.Store, callerId: string, id: FS.FileId): (r: (Result<FS.FileRecord, ApiError>, FS.Store))
    ensures r.0.Ok? <==> id in s.files
    ensures r.0.Err? ==> r.0.error == NotFound(FileNotFound) && r.1 == s
    ensures r.0.Ok? ==>
      && r.0.value == s.files[id]
      && r.1.disk == s.disk
      && r.1.files.Keys == s.files.Keys
      && FS.OthersUnchanged(s.files, r.1.files, id)
      && r.1.files[id] == r.0.value.(views := r.0.value.views + 1)
  {
    match FS.FindOne(s.files, id)
    case None => (Err(NotFound(FileNotFound)), s)
    case Some(file) =>
      var (_, files) := FS.UpdateViews(s.files, id);
      (Ok(file), FS.Store(files, s.disk))
  }

  /** `getFile` returning the row `updateViews` wrote, so the view it counts is included. */
  function GetFileCounted(s: FS.Store, callerId: string, id: FS.FileId): (r: (Result<FS.FileRecord, ApiError>, FS.Store))
    ensures r.0.Ok? <==> id in s.files
    ensures r.0.Err? ==> r.0.error == NotFound(FileNotFound) && r.1 == s
    ensures r.0.Ok? ==>
      && r.0.value == s.files[id].(views := s.files[id].views + 1)
      && r.1 == GetFile(s, callerId, id).1
      && r.1.files[id] == r.0.value
  {
    match FS.FindOne(s.files, id)
    case None => (Err(NotFound(FileNotFound)), s)
    case Some(_) =>
      var (updated, files) := FS.UpdateViews(s.files, id);
      (Ok(updated.value), FS.Store(files, s.disk))
  }

  /** `file.mimeType || 'application/octet-stream'`: null and `""` are both falsy. */
  function ContentType(mimeType: Option<string>): (r: string)
    ensures mimeType.Some? && mimeType.value != "" ==> r == mimeType.value
    ensures mimeType.None? || mimeType.value == "" ==> r == OctetStream
  {
    if mimeType.Some? && mimeType.value != "" then mimeType.value else OctetStream
  }

  /**
   `serveFile` (public): NotFound for a missing row; otherwise the view is
   counted first, so it is counted even when the blob then turns out to be
   missing. The blob is served inline under the stored mime type.
   */
  function ServeFile(s: FS.Store, id: FS.FileId): (r: (Result<Served, ApiError>, FS.Store))
    ensures id !in s.files <==> r.0 == Err(NotFound(FileNotFound))
    ensures id !in s.files ==> r.1 == s
    ensures r.0.Ok? <==> id in s.files && ReadPath(s.files[id].url) in s.disk
    ensures id in s.files && ReadPath(s.files[id].url) !in s.disk ==> r.0 == Err(NotFound(FileNotFoundOnDisk))
    ensures id in s.files ==>
      && r.1.disk == s.disk
      && r.1.files.Keys == s.files.Keys
      && FS.OthersUnchanged(s.files, r.1.files, id)
      && r.1.files[id] == s.files[id].(views := s.files[id].views + 1)
    ensures r.0.Ok? ==>
      && r.0.value.path == ReadPath(s.files[id].url)
      && r.0.value.contentType == ContentType(s.files[id].mimeType)
      && r.0.value.disposition == "inline; filename=\"" + s.files[id].name + "\""
  {
    match FS.FindOne(s.files, id)
    case None => (Err(NotFound(FileNotFound)), s)
    case Some(file) =>
      var (_, files) := FS.UpdateViews(s.files, id);
      var s' := FS.Store(files, s.disk);
      var path := ReadPath(file.url);
      if path !in s.disk then (Err(NotFound(FileNotFoundOnDisk)), s')
      else (Ok(Served(path, ContentType(file.mimeType), "inline; filename=\"" + file.name + "\"")), s')
  }

  /** No record loses views unless it is deleted. */
  ghost predicate ViewsMonotone(before: FS.Files, after: FS.Files)
  {
    forall id :: id in before && id in after ==> before[id].views <= after[id].views
  }

  /** The endpoints that write rows keep view counts from going down. */
  lemma WritesKeepViewsMonotone(s: FS.Store, caller: string, id: FS.FileId, tags: Option<seq<string>>,
                                file: Option<UploadedFile>, body: Option<string>, newId: FS.FileId)
    requires newId !in s.files
    ensures ViewsMonotone(s.files, UploadFile(s, caller, file, body, newId).1.files)
    ensures ViewsMonotone(s.files, UpdateTags(s, caller, id, tags).1.files)
    ensures ViewsMonotone(s.files, DeleteFile(s, caller, id).1.files)
  {
  }

  /** The endpoints that read rows keep view counts from going down. */
  lemma ReadsKeepViewsMonotone(s: FS.Store, caller: string, id: FS.FileId)
    ensures ViewsMonotone(s.files, DownloadFile(s, caller, id).1.files)
    ensures ViewsMonotone(s.files, GetFile(s, caller, id).1.files)
    ensures ViewsMonotone(s.files, ServeFile(s, id).1.files)
  {
  }

  /** `updateTags`, `deleteFile` and `downloadFile` answer every caller alike: there is no ownership check. */
  lemma NoOwnershipCheck(s: FS.Store, a: string, b: string, id: FS.FileId, tags: Option<seq<string>>)
    ensures UpdateTags(s, a, id, tags) == UpdateTags(s, b, id, tags)
    ensures DeleteFile(s, a, id) == DeleteFile(s, b, id)
    ensures DownloadFile(s, a, id) == DownloadFile(s, b, id)
    ensures GetFile(s, a, id) == GetFile(s, b, id)
  {
  }

  /** An accepted upload can be downloaded straight away, and deleting it removes the blob multer wrote. */
  lemma UploadThenDownloadAndDelete(s: FS.Store, userId: string, file: UploadedFile, tags: Option<string>, newId: FS.FileId, caller: string)
    requires newId !in s.files
    requires UploadFile(s, userId, Some(file), tags, newId).0.Ok?
    ensures var s1 := UploadFile(s, userId, Some(file), tags, newId).1;
      DownloadFile(s1, caller, newId).0.Ok?
    ensures var s1 := UploadFile(s, userId, Some(file), tags, newId).1;
      StoredPath(userId, file.originalname) !in FS.Delete(s1, newId).1.disk
  {
    UploadPathsAgree(userId, file.originalname);
  }

  /** `create` drops the mime type, so an uploaded file is always served as an octet stream. */
  lemma UploadedFilesServedAsOctetStream(s: FS.Store, userId: string, file: UploadedFile, tags: Option<string>, newId: FS.FileId)
    requires newId !in s.files
    requires UploadFile(s, userId, Some(file), tags, newId).0.Ok?
    ensures var s1 := UploadFile(s, userId, Some(file), tags, newId).1;
      ServeFile(s1, newId).0.Ok? && ServeFile(s1, newId).0.value.contentType == OctetStream
  {
    UploadPathsAgree(userId, file.originalname);
  }
}
