/**
 `FileService` of `src/file/file.service.ts`: the `File` table as a map from
 id to record, and the blobs on disk as a set of paths relative to the
 process's working directory.
 */
module FileService {
  import opened Common
  import opened Strings

  type FileId = string

  /** A row of the `File` table. `mimeType` is never written by this service. */
  datatype FileRecord = FileRecord(
    name: string,
    url: string,
    userId: string,
    tags: seq<string>,
    mimeType: Option<string>,
    views: nat)

  type Files = map<FileId, FileRecord>

  /** The table together with the paths of the blobs on disk. */
  datatype Store = Store(files: Files, disk: set<string>)

  /** Prisma's `update` and `delete` throw when no row has the id. */
  datatype ServiceError = RecordNotFound

  /** The argument object of `create`; `mimeType` is passed by the controller but not destructured. */
  datatype CreateArgs = CreateArgs(
    originalname: string,
    url: string,
    userId: string,
    mimeType: Option<string>,
    tags: Option<seq<string>>)

  /** Every record other than `id` is as it was. */
  ghost predicate OthersUnchanged(before: Files, after: Files, id: FileId)
  {
    forall other :: other in before && other != id ==> other in after && after[other] == before[other]
  }

  /**
   `create`: a new row holding the upload's original name, url, owner and tags
   (an absent tag list is stored as `[]`), no mime type and no views.
   */
  function Create(files: Files, args: CreateArgs, newId: FileId): (r: (Files, FileRecord))
    requires newId !in files
    ensures r.0.Keys == files.Keys + {newId}
    ensures OthersUnchanged(files, r.0, newId)
    ensures r.0[newId] == r.1
    ensures r.1.name == args.originalname && r.1.url == args.url && r.1.userId == args.userId
    ensures args.tags.Some? ==> r.1.tags == args.tags.value
    ensures args.tags.None? ==> r.1.tags == []
    ensures r.1.mimeType == None && r.1.views == 0
  {
    var record := FileRecord(args.originalname, args.url, args.userId, args.tags.GetOr([]), None, 0);
    (files[newId := record], record)
  }

  /**
   `updateTags`: the tag list is replaced wholesale; every other field and
   every other record stays. An absent list (`undefined` in the body) is left
   out of Prisma's update data, so the row is returned unchanged.
   */
  function UpdateTags(files: Files, id: FileId, tags: Option<seq<string>>): (r: (Result<FileRecord, ServiceError>, Files))
    ensures r.0.Ok? <==> id in files
    ensures r.0.Err? ==> r.1 == files
    ensures r.0.Ok? ==>
      && r.1.Keys == files.Keys
      && OthersUnchanged(files, r.1, id)
      && r.1[id] == r.0.value
      && r.0.value.tags == tags.GetOr(files[id].tags)
      && r.0.value == files[id].(tags := r.0.value.tags)
  {
    if id !in files then (Err(RecordNotFound), files)
    else
      var updated := files[id].(tags := tags.GetOr(files[id].tags));
      (Ok(updated), files[id := updated])
  }

  /** The search filter of `findAll` for a non-empty query. */
  predicate MatchesQuery(f: FileRecord, query: string)
  {
    ContainsInsensitive(f.name, query) || query in f.tags
  }

  /** Whether `findAll` filters by the query at all: it must be present and non-empty. */
  predicate Searching(query: Option<string>)
  {
    query.Some? && |query.value| > 0
  }

  /**
   `findAll`: the caller's own files, and, with a non-empty query, only those
   whose name contains it case-insensitively or whose tags hold it exactly.
   */
  function FindAll(files: Files, userId: string, query: Option<string>): (r: Files)
    ensures forall id :: id in r <==>
      id in files && files[id].userId == userId && (Searching(query) ==> MatchesQuery(files[id], query.value))
    ensures forall id :: id in r ==> r[id] == files[id]
  {
    if Searching(query) then
      map id | id in files && files[id].userId == userId && MatchesQuery(files[id], query.value) :: files[id]
    else
      map id | id in files && files[id].userId == userId :: files[id]
  }

  /** A search never returns more than the owner's unfiltered list. */
  lemma SearchWithinOwnerFiles(files: Files, userId: string, query: Option<string>)
    ensures forall id :: id in FindAll(files, userId, query) ==>
      id in FindAll(files, userId, None) && FindAll(files, userId, query)[id] == FindAll(files, userId, None)[id]
  {
  }

  /** `findOne`. */
  function FindOne(files: Files, id: FileId): (r: Option<FileRecord>)
    ensures r.Some? <==> id in files
    ensures r.Some? ==> r.value == files[id]
  {
    if id in files then Some(files[id]) else None
  }

  /** `updateViews`: the record's view count goes up by one, nothing else changes. */
  function UpdateViews(files: Files, id: FileId): (r: (Result<FileRecord, ServiceError>, Files))
    ensures r.0.Ok? <==> id in files
    ensures r.0.Err? ==> r.1 == files
    ensures r.0.Ok? ==>
      && r.1.Keys == files.Keys
      && OthersUnchanged(files, r.1, id)
      && r.1[id] == r.0.value
      && r.0.value.views == files[id].views + 1
      && r.0.value == files[id].(views := r.0.value.views)
  {
    if id !in files then (Err(RecordNotFound), files)
    else
      var updated := files[id].(views := files[id].views + 1);
      (Ok(updated), files[id := updated])
  }

  /**
   The blob path `delete` derives from a url: `join(cwd, 'file', rest)` with
   the first `"/file/"` of the url removed, relative to the working directory.
   */
  function BlobPath(url: string): string
  {
    "file/" + ReplaceFirst(url, "/file/", "")
  }

  /**
   `delete`: an absent id is a no-op returning nothing. A present one loses its
   blob, when one is on disk, and then its row; the deleted row is returned.
   */
  function Delete(s: Store, id: FileId): (r: (Option<FileRecord>, Store))
    ensures r.0.Some? <==> id in s.files
    ensures r.0.None? ==> r.1 == s
    ensures r.0.Some? ==>
      && r.0.value == s.files[id]
      && r.1.files.Keys == s.files.Keys - {id}
      && OthersUnchanged(s.files, r.1.files, id)
      && r.1.disk == s.disk - {BlobPath(s.files[id].url)}
  {
    match FindOne(s.files, id)
    case None => (None, s)
    case Some(file) =>
      var path := BlobPath(file.url);
      var disk := if path in s.disk then s.disk - {path} else s.disk;
      (Some(file), Store(s.files - {id}, disk))
  }

  /** Deleting twice leaves the store as deleting once, and the second call returns nothing. */
  lemma DeleteIdempotent(s: Store, id: FileId)
    ensures Delete(Delete(s, id).1, id).1 == Delete(s, id).1
    ensures Delete(Delete(s, id).1, id).0 == None
  {
  }
}
