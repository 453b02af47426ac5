/**
 * The snapshot route (app/api/media/snapshots/route.ts). GET finds an attempt,
 * by id or as the latest attempt of one student in one exam. It decides who
 * may see that attempt's latest webcam snapshot and returns the snapshot,
 * inlined as a data URL when storage is local. POST checks that the caller
 * owns the attempt, chooses the content type from the data-URL prefix,
 * uploads the decoded image and records it. The database tables are
 * sequences of rows. The current user, the clock, the random name part, the
 * storage back end, reading files and base64 in both directions are parameters.
 */
module Snapshots {
  import Text
  import opened Wrappers
  import opened ApiErrors
  import opened Auth
  import Validation
  import Storage

  datatype SnapshotType = WEBCAM | SCREEN | DOCUMENT

  function TypeName(t: SnapshotType): string {
    match t
    case WEBCAM => "WEBCAM"
    case SCREEN => "SCREEN"
    case DOCUMENT => "DOCUMENT"
  }

  /** An attempt row with the `createdById` of its exam (the `include: { exam: true }`). */
  datatype Attempt = Attempt(id: string, examId: string, studentId: string, startTime: int, examCreatedById: string)

  /** A snapshot row; metadata values are kept as text. */
  datatype Snapshot = Snapshot(
    id: string, attemptId: string, url: string, storageKey: string, kind: SnapshotType,
    size: nat, createdAt: int, metadata: map<string, string>)

  // ------------------------------------------------------------------ lookups

  /** `findUnique`/`findFirst` without an order: the first row that `keep` accepts. */
  function First<T>(rows: seq<T>, keep: T -> bool): (r: Option<T>)
    ensures r.None? <==> forall i :: 0 <= i < |rows| ==> !keep(rows[i])
    ensures r.Some? ==> keep(r.value) && exists i :: 0 <= i < |rows| && rows[i] == r.value
  {
    if rows == [] then None
    else if keep(rows[0]) then Some(rows[0])
    else
      var rest := First(rows[1..], keep);
      assert rest.Some? ==> exists i :: 0 <= i < |rows[1..]| && rows[1..][i] == rest.value;
      assert forall i :: 1 <= i < |rows| ==> rows[i] == rows[1..][i - 1];
      rest
  }

  /** `findFirst` ordered by `time` descending: a row `keep` accepts whose time no other accepted row exceeds. */
  function Latest<T>(rows: seq<T>, keep: T -> bool, time: T -> int): (r: Option<T>)
    ensures r.None? <==> forall i :: 0 <= i < |rows| ==> !keep(rows[i])
    ensures r.Some? ==> keep(r.value) && exists i :: 0 <= i < |rows| && rows[i] == r.value
    ensures r.Some? ==> forall i :: 0 <= i < |rows| && keep(rows[i]) ==> time(rows[i]) <= time(r.value)
  {
    if rows == [] then None
    else
      var rest := Latest(rows[1..], keep, time);
      assert rest.Some? ==> exists i :: 0 <= i < |rows[1..]| && rows[1..][i] == rest.value;
      assert forall i :: 1 <= i < |rows| ==> rows[i] == rows[1..][i - 1];
      if keep(rows[0]) && (rest.None? || time(rest.value) <= time(rows[0])) then Some(rows[0])
      else rest
  }

  // ---------------------------------------------------------------------- GET

  /** The search parameters; `get` gives `null` for an absent one. */
  datatype Query = Query(attemptId: Option<string>, examId: Option<string>, studentId: Option<string>)

  /** A parameter JavaScript treats as truthy: present and not empty. */
  predicate Given(p: Option<string>) { p.Some? && p.value != "" }

  /** The 400 condition: no attempt id, and not both an exam id and a student id. */
  predicate MissingQuery(q: Query) { !Given(q.attemptId) && (!Given(q.examId) || !Given(q.studentId)) }

  const QueryMessage := "Provide attemptId or both examId and studentId"

  /** The attempt GET looks at: by id when one is given, else the latest of that student in that exam. */
  function Located(q: Query, attempts: seq<Attempt>): (r: Option<Attempt>)
    requires !MissingQuery(q)
    ensures Given(q.attemptId) ==>
      (r.None? <==> forall i :: 0 <= i < |attempts| ==> attempts[i].id != q.attemptId.value)
    ensures Given(q.attemptId) && r.Some? ==> r.value.id == q.attemptId.value
    ensures !Given(q.attemptId) && r.Some? ==>
      r.value.examId == q.examId.value && r.value.studentId == q.studentId.value
      && forall i :: 0 <= i < |attempts| && attempts[i].examId == q.examId.value && attempts[i].studentId == q.studentId.value
           ==> attempts[i].startTime <= r.value.startTime
    ensures !Given(q.attemptId) ==>
      (r.None? <==> forall i :: 0 <= i < |attempts| ==>
         !(attempts[i].examId == q.examId.value && attempts[i].studentId == q.studentId.value))
    ensures r.Some? ==> exists i :: 0 <= i < |attempts| && attempts[i] == r.value
  {
    if Given(q.attemptId) then
      var id := q.attemptId.value;
      First(attempts, (a: Attempt) => a.id == id)
    else
      var examId := q.examId.value;
      var studentId := q.studentId.value;
      Latest(attempts, (a: Attempt) => a.examId == examId && a.studentId == studentId, (a: Attempt) => a.startTime)
  }

  /** `canViewSnapshot`: an admin, the attempt's own student, or the teacher who created the exam. */
  predicate CanView(user: AuthUser, attempt: Attempt) {
    user.role == ADMIN
    || (user.role == STUDENT && attempt.studentId == user.id)
    || (user.role == TEACHER && attempt.examCreatedById == user.id)
  }

  /** The latest webcam snapshot of an attempt, by `createdAt`. */
  function LatestWebcam(snapshots: seq<Snapshot>, attemptId: string): (r: Option<Snapshot>)
    ensures r.None? <==> forall i :: 0 <= i < |snapshots| ==> !(snapshots[i].attemptId == attemptId && snapshots[i].kind == WEBCAM)
    ensures r.Some? ==> r.value.attemptId == attemptId && r.value.kind == WEBCAM
    ensures r.Some? ==>
      (forall i :: 0 <= i < |snapshots| && snapshots[i].attemptId == attemptId && snapshots[i].kind == WEBCAM
         ==> snapshots[i].createdAt <= r.value.createdAt)
  {
    Latest(snapshots, (s: Snapshot) => s.attemptId == attemptId && s.kind == WEBCAM, (s: Snapshot) => s.createdAt)
  }

  /** The MIME type served for a stored key: png and webp by the lower-cased extension, else JPEG. */
  function MimeOfKey(key: string): (mime: string)
    ensures mime in {"image/png", "image/webp", "image/jpeg"}
  {
    var ext := Text.Lower(Storage.LastPiece(key, '.'));
    if ext == "png" then "image/png" else if ext == "webp" then "image/webp" else "image/jpeg"
  }

  /** What GET answers about a snapshot. */
  datatype SnapshotView = SnapshotView(
    id: string, attemptId: string, kind: SnapshotType, capturedAt: int, signedUrl: string,
    inlineData: Option<string>, size: nat)

  /**
   * `GET /api/media/snapshots`. `provider` is STORAGE_PROVIDER, `sign` the S3
   * URL signer, `read` the local file read and `encode` the base64 encoder.
   */
  method Get(current: Option<AuthUser>, q: Query, attempts: seq<Attempt>, snapshots: seq<Snapshot>,
             provider: string, sign: string -> string, read: string -> Option<seq<bv8>>, encode: seq<bv8> -> string)
    returns (r: Response<Option<SnapshotView>>)
    ensures current.None? ==> r == ErrorBody(401, "Authentication required", None)
    ensures current.Some? && MissingQuery(q) ==> r == ErrorBody(400, QueryMessage, None)
    ensures current.Some? && !MissingQuery(q) && Located(q, attempts).None? ==> r == ErrorBody(404, "Attempt not found", None)
    ensures current.Some? && !MissingQuery(q) && Located(q, attempts).Some? && !CanView(current.value, Located(q, attempts).value)
      ==> r == ErrorBody(403, "You do not have permission to view this snapshot", None)
    ensures r.Success() <==>
      current.Some? && !MissingQuery(q) && Located(q, attempts).Some? && CanView(current.value, Located(q, attempts).value)
    ensures r.Success() ==> r.status == 200
    ensures r.Success() ==> (r.data.None? <==> LatestWebcam(snapshots, Located(q, attempts).value.id).None?)
    ensures r.Success() && r.data.Some? ==>
      var s := LatestWebcam(snapshots, Located(q, attempts).value.id).value;
      var v := r.data.value;
      v.id == s.id && v.attemptId == s.attemptId && v.kind == WEBCAM && v.capturedAt == s.createdAt && v.size == s.size
      && v.signedUrl == Storage.GetFileUrl(provider, s.storageKey, sign)
      && (v.inlineData.Some? <==> provider == "local" && read(s.storageKey).Some?)
      && (v.inlineData.Some? ==> v.inlineData.value == "data:" + MimeOfKey(s.storageKey) + ";base64," + encode(read(s.storageKey).value))
  {
    var auth := RequireAuth(current);
    if auth.Throws? {
      r := ErrorHandler(auth.error);
      return;
    }
    var user := auth.value;
    if MissingQuery(q) {
      r := ErrorHandler(ApiError(400, QueryMessage, None));
      return;
    }
    var attempt := Located(q, attempts);
    if attempt.None? {
      r := ErrorHandler(ApiError(404, "Attempt not found", None));
      return;
    }
    if !CanView(user, attempt.value) {
      r := ErrorHandler(ApiError(403, "You do not have permission to view this snapshot", None));
      return;
    }
    var latest := LatestWebcam(snapshots, attempt.value.id);
    if latest.None? {
      r := SuccessResponse(None, None);
      return;
    }
    var s := latest.value;
    var signedUrl := Storage.GetFileUrl(provider, s.storageKey, sign);
    var inlineData: Option<string> := None;
    if provider == "local" {
      var buffer := Storage.LocalFileBuffer(provider, s.storageKey, read);
      if buffer.Some? {
        var mime := MimeOfKey(s.storageKey);
        inlineData := Some("data:" + mime + ";base64," + encode(buffer.value));
      }
    }
    r := SuccessResponse(Some(SnapshotView(s.id, s.attemptId, s.kind, s.createdAt, signedUrl, inlineData, s.size)), None);
  }

  /** Only the attempt's student, the exam's creator or an admin gets past the permission check. */
  lemma ViewersOfAttempt(user: AuthUser, attempt: Attempt)
    ensures CanView(user, attempt) <==>
      user.role == ADMIN || (user.id == attempt.studentId && user.role == STUDENT)
      || (user.id == attempt.examCreatedById && user.role == TEACHER)
    ensures user.role == TEACHER && user.id != attempt.examCreatedById ==> !CanView(user, attempt)
    ensures user.role == STUDENT && user.id != attempt.studentId ==> !CanView(user, attempt)
  {
  }

  // --------------------------------------------------------------------- POST

  /** The JSON body of an upload, field by field. */
  datatype UploadBody = UploadBody(
    attemptId: Option<string>, image: Option<string>, kind: Option<string>, metadata: Option<map<string, string>>)

  /** An upload after `uploadSnapshotSchema`. */
  datatype Upload = Upload(attemptId: string, image: string, kind: SnapshotType, metadata: Option<map<string, string>>)

  const TypeNames := ["WEBCAM", "SCREEN", "DOCUMENT"]

  function TypeOf(name: string): SnapshotType {
    if name == "SCREEN" then SCREEN else if name == "DOCUMENT" then DOCUMENT else WEBCAM
  }

  /** `uploadSnapshotSchema`: a cuid attempt id, a string image, a type that defaults to WEBCAM. */
  function UploadSchema(f: Validation.Formats, b: UploadBody): (r: Outcome<Upload>)
    ensures r.Ok? <==>
      (b.attemptId.Some? && f.isCuid(b.attemptId.value) && b.image.Some?
       && (b.kind.Some? ==> b.kind.value in TypeNames))
    ensures r.Ok? ==>
      (r.value.attemptId == b.attemptId.value && r.value.image == b.image.value
       && r.value.metadata == b.metadata)
    ensures r.Ok? ==> TypeName(r.value.kind) == b.kind.GetOr("WEBCAM")
  {
    var issues :=
      Validation.FormatField(["attemptId"], b.attemptId, true, f.isCuid, "Invalid cuid")
      + (if b.image.None? then [Issue(["image"], Validation.Required)] else [])
      + Validation.EnumField(["type"], b.kind, false, TypeNames);
    Validation.Parse(issues, Upload(b.attemptId.GetOr(""), b.image.GetOr(""), TypeOf(b.kind.GetOr("WEBCAM")), b.metadata))
  }

  /** The content type taken from the data-URL prefix: PNG, WebP, otherwise JPEG. */
  function ContentTypeOf(image: string): (contentType: string)
    ensures contentType in {"image/png", "image/webp", "image/jpeg"}
    ensures contentType == "image/png" <==> Text.StartsWith(image, "data:image/png")
    ensures contentType == "image/webp" <==> !Text.StartsWith(image, "data:image/png") && Text.StartsWith(image, "data:image/webp")
  {
    if Text.StartsWith(image, "data:image/png") then "image/png"
    else if Text.StartsWith(image, "data:image/webp") then "image/webp"
    else "image/jpeg"
  }

  /** `contentType.split('/')[1]`, which a template literal shows as "undefined" when there is no '/'. */
  function Subtype(contentType: string): string {
    var parts := Text.Split(contentType, '/');
    if |parts| > 1 then parts[1] else "undefined"
  }

  /** The subtype of "image/<ext>" is `ext`. */
  lemma SubtypeOfImage(ext: string)
    requires '/' !in ext
    ensures Subtype("image/" + ext) == ext
  {
    Text.SplitJoin(["image", ext], '/');
    assert Text.Join(["image", ext], "/") == "image/" + ext;
  }

  /** The name handed to `uploadFile`: "snapshot-<attempt id>-<now>.<subtype>". */
  function SnapshotFilename(attemptId: string, now: nat, contentType: string): string {
    "snapshot-" + attemptId + "-" + Text.NatToString(now) + "." + Subtype(contentType)
  }

  /** The metadata stored with the record: the client's, with `contentType` set by the route. */
  function RecordMetadata(client: Option<map<string, string>>, contentType: string): (m: map<string, string>)
    ensures "contentType" in m && m["contentType"] == contentType
    ensures forall k :: k in m && k != "contentType" ==> client.Some? && k in client.value && m[k] == client.value[k]
    ensures client.Some? ==> forall k :: k in client.value ==> k in m
  {
    client.GetOr(map[]) + map["contentType" := contentType]
  }

  /**
   * `POST /api/media/snapshots`. `body` is the parsed JSON (or what parsing
   * threw), `decode` the base64 decoder, `maxSizeMB` the parsed
   * MAX_SNAPSHOT_SIZE_MB, `now` the route's `Date.now()`, and `uploadNow` and
   * `randomHex` the clock and random part `uploadFile` uses; `newId` and
   * `createdAt` are what the database assigns to the new row.
   */
  method Post(current: Option<AuthUser>, f: Validation.Formats, body: Outcome<UploadBody>, attempts: seq<Attempt>,
              decode: string -> seq<bv8>, maxSizeMB: int, provider: string, bucket: string, region: string,
              now: nat, uploadNow: nat, randomHex: string, newId: string, createdAt: int)
    returns (r: Response<Snapshot>)
    ensures current.None? ==> r == ErrorBody(401, "Authentication required", None)
    ensures r.Success() <==>
      current.Some? && body.Ok? && UploadSchema(f, body.value).Ok?
      && (var data := UploadSchema(f, body.value).value;
          var attempt := First(attempts, (a: Attempt) => a.id == data.attemptId);
          attempt.Some? && (attempt.value.studentId == current.value.id || current.value.role == ADMIN)
          && Storage.ValidateFileSize(|Storage.Base64ToBuffer(data.image, decode)|, maxSizeMB))
    ensures current.Some? && body.Throws? && !body.error.ZodError? ==> r == ErrorHandler(body.error)
    ensures current.Some? && body.Ok? && UploadSchema(f, body.value).Throws? ==>
      r == ErrorBody(400, "Validation error", Some(UploadSchema(f, body.value).error.issues))
    ensures current.Some? && body.Ok? && UploadSchema(f, body.value).Ok? ==>
      var data := UploadSchema(f, body.value).value;
      var attempt := First(attempts, (a: Attempt) => a.id == data.attemptId);
      (attempt.None? ==> r == ErrorBody(404, "Attempt not found", None))
      && (attempt.Some? && attempt.value.studentId != current.value.id && current.value.role != ADMIN
          ==> r == ErrorBody(403, "Not your attempt", None))
      && (attempt.Some? && (attempt.value.studentId == current.value.id || current.value.role == ADMIN)
          && !Storage.ValidateFileSize(|Storage.Base64ToBuffer(data.image, decode)|, maxSizeMB)
          ==> r == ErrorBody(400, "File size exceeds " + Text.IntToString(maxSizeMB) + "MB limit", None))
    ensures r.Success() ==>
      var data := UploadSchema(f, body.value).value;
      var contentType := ContentTypeOf(data.image);
      r.status == 201 && r.data.id == newId && r.data.attemptId == data.attemptId && r.data.kind == data.kind
      && r.data.size == |Storage.Base64ToBuffer(data.image, decode)| && r.data.createdAt == createdAt
      && r.data.metadata == RecordMetadata(data.metadata, contentType)
      && MimeOfKey(r.data.storageKey) == contentType
      && var uploaded := Storage.UploadFile(provider, SnapshotFilename(data.attemptId, now, contentType),
                                            r.data.size, uploadNow, randomHex, bucket, region);
         r.data.url == uploaded.url && r.data.storageKey == uploaded.key
  {
    var auth := RequireAuth(current);
    if auth.Throws? {
      r := ErrorHandler(auth.error);
      return;
    }
    var user := auth.value;
    var parsed := ValidateRequest(body, b => UploadSchema(f, b));
    if parsed.Throws? {
      r := ErrorHandler(parsed.error);
      return;
    }
    var data := parsed.value;
    var attempt := First(attempts, (a: Attempt) => a.id == data.attemptId);
    if attempt.None? {
      r := ErrorHandler(ApiError(404, "Attempt not found", None));
      return;
    }
    if attempt.value.studentId != user.id && user.role != ADMIN {
      r := ErrorHandler(ApiError(403, "Not your attempt", None));
      return;
    }
    var buffer := Storage.Base64ToBuffer(data.image, decode);
    if !Storage.ValidateFileSize(|buffer|, maxSizeMB) {
      r := ErrorHandler(ApiError(400, "File size exceeds " + Text.IntToString(maxSizeMB) + "MB limit", None));
      return;
    }
    var snapshot := StoreSnapshot(data, attempt.value.id, |buffer|, provider, bucket, region, now, uploadNow, randomHex,
                                  newId, createdAt);
    r := SuccessResponse(snapshot, Some(201));
  }

  /** The content type sniffed from the data URL, the upload, and the record of an accepted snapshot. */
  method StoreSnapshot(data: Upload, attemptId: string, size: nat, provider: string, bucket: string, region: string,
                       now: nat, uploadNow: nat, randomHex: string, newId: string, createdAt: int)
    returns (snapshot: Snapshot)
    ensures snapshot.id == newId && snapshot.attemptId == data.attemptId && snapshot.kind == data.kind
    ensures snapshot.size == size && snapshot.createdAt == createdAt
    ensures snapshot.metadata == RecordMetadata(data.metadata, ContentTypeOf(data.image))
    ensures MimeOfKey(snapshot.storageKey) == ContentTypeOf(data.image)
    ensures var uploaded := Storage.UploadFile(provider, SnapshotFilename(attemptId, now, ContentTypeOf(data.image)),
                                               size, uploadNow, randomHex, bucket, region);
      snapshot.url == uploaded.url && snapshot.storageKey == uploaded.key
  {
    var contentType := "image/jpeg";
    ghost var ext := "jpeg";
    if Text.StartsWith(data.image, "data:image/png") {
      contentType := "image/png";
      ext := "png";
    } else if Text.StartsWith(data.image, "data:image/webp") {
      contentType := "image/webp";
      ext := "webp";
    }
    assert contentType == "image/" + ext;
    // The type check that follows in the route can never fail.
    assert Storage.ValidateImageType(contentType);
    var filename := SnapshotFilename(attemptId, now, contentType);
    var uploaded := Storage.UploadFile(provider, filename, size, uploadNow, randomHex, bucket, region);
    StoredKeyServesType(attemptId, now, ext, size, uploadNow, randomHex, provider, bucket, region);
    snapshot := Snapshot(newId, data.attemptId, uploaded.url, uploaded.key, data.kind, uploaded.size, createdAt,
                          RecordMetadata(data.metadata, contentType));
  }

  /** The key of an upload whose name ends in ".<ext>", for a '.'-free `ext` other than "jpg", ends in that extension. */
  lemma KeyExtension(filename: string, ext: string, size: nat, uploadNow: nat, randomHex: string,
                     provider: string, bucket: string, region: string)
    requires ext != "" && '.' !in ext && ext != "jpg"
    requires Storage.Extension(filename) == ext
    ensures Storage.LastPiece(Storage.UploadFile(provider, filename, size, uploadNow, randomHex, bucket, region).key, '.') == ext
  {
    var key := Storage.UploadFile(provider, filename, size, uploadNow, randomHex, bucket, region).key;
    var generated := Storage.GenerateFilename(filename, uploadNow, randomHex);
    assert key == ("snapshots/" + Text.NatToString(uploadNow) + "-" + randomHex) + "." + ext;
    Storage.ExtensionAfterDot("snapshots/" + Text.NatToString(uploadNow) + "-" + randomHex, ext);
  }

  /** A key whose last '.'-piece is png, webp or jpeg is served as that image type. */
  lemma MimeOfEnding(key: string, ext: string)
    requires ext in {"png", "webp", "jpeg"} && Storage.LastPiece(key, '.') == ext
    ensures MimeOfKey(key) == "image/" + ext
  {
    assert Text.Lower("png") == "png" && Text.Lower("webp") == "webp" && Text.Lower("jpeg") == "jpeg";
  }

  /**
   * What POST stores is what GET serves: the key of an uploaded snapshot ends
   * in the subtype of its content type, so the MIME type GET derives from the
   * key is the content type POST chose.
   */
  lemma StoredKeyServesType(attemptId: string, now: nat, ext: string, size: nat, uploadNow: nat,
                            randomHex: string, provider: string, bucket: string, region: string)
    requires ext in {"png", "webp", "jpeg"}
    ensures var filename := SnapshotFilename(attemptId, now, "image/" + ext);
      MimeOfKey(Storage.UploadFile(provider, filename, size, uploadNow, randomHex, bucket, region).key) == "image/" + ext
  {
    SubtypeOfImage(ext);
    var base := "snapshot-" + attemptId + "-" + Text.NatToString(now);
    var filename := SnapshotFilename(attemptId, now, "image/" + ext);
    assert filename == base + "." + ext;
    Storage.ExtensionAfterDot(base, ext);
    KeyExtension(filename, ext, size, uploadNow, randomHex, provider, bucket, region);
    MimeOfEnding(Storage.UploadFile(provider, filename, size, uploadNow, randomHex, bucket, region).key, ext);
  }

  /** Whatever the image, the content type POST chooses passes `validateImageType`. */
  lemma ContentTypeAlwaysValid(image: string)
    ensures Storage.ValidateImageType(ContentTypeOf(image))
    ensures !Text.StartsWith(image, "data:image/") ==> ContentTypeOf(image) == "image/jpeg"
  {
    Text.PrefixOfPrefix(image, "data:image/png", "data:image/");
    Text.PrefixOfPrefix(image, "data:image/webp", "data:image/");
  }
}
