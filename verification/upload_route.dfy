/**
 * `POST /api/attachments/upload`: validates a multipart upload, stores the
 * file under a per-occurrence path, records its metadata, and removes the
 * stored object again when the metadata cannot be recorded.
 *
 * The handler is a transition over a `World` (the object paths in the
 * attachments bucket and the rows of the attachments table) driven by an
 * `Env` that fixes everything outside it: the session, which occurrences
 * the caller can see, the clock, and whether each storage or table call
 * fails.
 */
module UploadRoute {
  import opened Options
  import opened Text
  import opened Request
  import opened FileUtils

  datatype FileUpload = FileUpload(name: string, mimeType: string, size: int)

  /** The two form fields: `file` and `occurrenceId`, each possibly absent. */
  datatype UploadForm = UploadForm(file: Option<FileUpload>, occurrenceId: Option<string>)

  datatype Attachment = Attachment(
    occurrenceId: string,
    fileName: string,
    filePath: string,
    fileType: string,
    fileSize: int,
    uploadedBy: string)

  datatype World = World(objects: set<string>, attachments: seq<Attachment>)

  datatype Env = Env(
    userId: Option<string>,
    visibleOccurrences: set<string>,
    now: nat,
    uploadFails: bool,
    insertFails: bool,
    removeFails: bool)

  datatype BadRequestReason = NoFile | NoOccurrenceId | TypeNotAllowed | TooLarge

  datatype Response =
    | BadRequest(reason: BadRequestReason)
    | Unauthorized
    | NotFound
    | UploadFailed
    | MetadataFailed
    | Uploaded(attachment: Attachment)

  function StatusCode(r: Response): int {
    match r
    case BadRequest(_) => 400
    case Unauthorized => 401
    case NotFound => 404
    case UploadFailed => 500
    case MetadataFailed => 500
    case Uploaded(_) => 200
  }

  /** The JSON error body: the message, and the allow-list or the size limit where the handler adds one. */
  datatype ErrorBody = ErrorBody(error: string, allowedTypes: Option<seq<string>>, maxSize: Option<int>)

  /** The error body of each answer but success, which answers with the stored row instead. */
  function ErrorBodyOf(r: Response): (b: Option<ErrorBody>)
    ensures b.None? <==> r.Uploaded?
    ensures b.Some? ==> b.value.error != ""
    ensures b.Some? && b.value.allowedTypes.Some? ==> r == BadRequest(TypeNotAllowed)
    ensures b.Some? && b.value.maxSize.Some? ==> r == BadRequest(TooLarge) && b.value.maxSize.value == MaxFileSize
    ensures r == BadRequest(TypeNotAllowed) ==> b == Some(ErrorBody("File type not allowed", Some(AllowedFileTypes), None))
    ensures r == BadRequest(TooLarge) ==> b == Some(ErrorBody("File size exceeds the maximum allowed size", None, Some(MaxFileSize)))
  {
    match r
    case BadRequest(NoFile) => Some(ErrorBody("No file provided", None, None))
    case BadRequest(NoOccurrenceId) => Some(ErrorBody("Occurrence ID is required", None, None))
    case BadRequest(TypeNotAllowed) => Some(ErrorBody("File type not allowed", Some(AllowedFileTypes), None))
    case BadRequest(TooLarge) => Some(ErrorBody("File size exceeds the maximum allowed size", None, Some(MaxFileSize)))
    case Unauthorized => Some(ErrorBody("Unauthorized", None, None))
    case NotFound => Some(ErrorBody("Occurrence not found or access denied", None, None))
    case UploadFailed => Some(ErrorBody("Failed to upload file", None, None))
    case MetadataFailed => Some(ErrorBody("Failed to store attachment metadata", None, None))
    case Uploaded(_) => None
  }

  /** The message of every other error answer; none of them carries a list or a limit. */
  lemma ErrorMessages()
    ensures ErrorBodyOf(BadRequest(NoFile)) == Some(ErrorBody("No file provided", None, None))
    ensures ErrorBodyOf(BadRequest(NoOccurrenceId)) == Some(ErrorBody("Occurrence ID is required", None, None))
    ensures ErrorBodyOf(Unauthorized) == Some(ErrorBody("Unauthorized", None, None))
    ensures ErrorBodyOf(NotFound) == Some(ErrorBody("Occurrence not found or access denied", None, None))
    ensures ErrorBodyOf(UploadFailed) == Some(ErrorBody("Failed to upload file", None, None))
    ensures ErrorBodyOf(MetadataFailed) == Some(ErrorBody("Failed to store attachment metadata", None, None))
  {
  }

  /** Reads an error answer back from the message of its body, if the message is one the handler writes. */
  function AnswerOfMessage(m: string): Option<Response> {
    if m == "No file provided" then Some(BadRequest(NoFile))
    else if m == "Occurrence ID is required" then Some(BadRequest(NoOccurrenceId))
    else if m == "File type not allowed" then Some(BadRequest(TypeNotAllowed))
    else if m == "File size exceeds the maximum allowed size" then Some(BadRequest(TooLarge))
    else if m == "Unauthorized" then Some(Unauthorized)
    else if m == "Occurrence not found or access denied" then Some(NotFound)
    else if m == "Failed to upload file" then Some(UploadFailed)
    else if m == "Failed to store attachment metadata" then Some(MetadataFailed)
    else None
  }

  /** Each message the handler writes reads back as its own answer. */
  lemma MessagesReadBack()
    ensures AnswerOfMessage("No file provided") == Some(BadRequest(NoFile))
    ensures AnswerOfMessage("Occurrence ID is required") == Some(BadRequest(NoOccurrenceId))
    ensures AnswerOfMessage("File type not allowed") == Some(BadRequest(TypeNotAllowed))
    ensures AnswerOfMessage("File size exceeds the maximum allowed size") == Some(BadRequest(TooLarge))
    ensures AnswerOfMessage("Unauthorized") == Some(Unauthorized)
    ensures AnswerOfMessage("Occurrence not found or access denied") == Some(NotFound)
    ensures AnswerOfMessage("Failed to upload file") == Some(UploadFailed)
    ensures AnswerOfMessage("Failed to store attachment metadata") == Some(MetadataFailed)
  {
    assert "Failed to upload file"[1] != "File type not allowed"[1];
  }

  /**
   * The message alone tells the error answers apart, even the two 500s:
   * reading the answer back from its message gives the answer.
   */
  lemma ErrorMessageIdentifiesAnswer(r: Response)
    requires !r.Uploaded?
    ensures AnswerOfMessage(ErrorBodyOf(r).value.error) == Some(r)
  {
    MessagesReadBack();
    ErrorMessages();
  }

  /** Hence two error answers with the same message are the same answer. */
  lemma SameMessageSameAnswer(r1: Response, r2: Response)
    requires !r1.Uploaded? && !r2.Uploaded?
    requires ErrorBodyOf(r1).value.error == ErrorBodyOf(r2).value.error
    ensures r1 == r2
  {
    ErrorMessageIdentifiesAnswer(r1);
    ErrorMessageIdentifiesAnswer(r2);
  }

  // ---------------------------------------------------------------------
  // Storage path

  /** `name.split('.').pop()`: the text after the last dot, or the whole name when it has none. */
  function Extension(name: string): string {
    LastSegment(name, '.')
  }

  /**
   * The pattern `/\.[^/.]+$/` matches at position `i`: a dot followed by at
   * least one character, none of them a dot or a slash, up to the end.
   */
  predicate ExtensionTailAt(name: string, i: int) {
    0 <= i < |name| - 1 && name[i] == '.'
    && forall j | i < j < |name| :: name[j] != '.' && name[j] != '/'
  }

  /** The name ends in a dot and a non-empty run free of dots and slashes. */
  predicate HasExtension(name: string) {
    var ext := Extension(name);
    |ext| < |name| && ext != "" && '/' !in ext
  }

  /** `name.replace(/\.[^/.]+$/, '')`: the name without its final extension, if it has one. */
  function StripExtension(name: string): (r: string)
    ensures HasExtension(name) ==> r + "." + Extension(name) == name
    ensures !HasExtension(name) ==> r == name
  {
    var ext := Extension(name);
    if HasExtension(name) then
      assert name == name[..|name| - |ext| - 1] + [name[|name| - |ext| - 1]] + name[|name| - |ext|..];
      name[..|name| - |ext| - 1]
    else name
  }

  /** When the name has an extension, the pattern matches exactly at its dot. */
  lemma HasExtensionMatchesPattern(name: string)
    requires HasExtension(name)
    ensures ExtensionTailAt(name, |name| - |Extension(name)| - 1)
  {
    var ext := Extension(name);
    var i := |name| - |ext| - 1;
    forall j | i < j < |name|
      ensures name[j] != '.' && name[j] != '/'
    {
      assert name[j] == ext[j - i - 1];
    }
  }

  /** Where the pattern matches, the name has an extension and the match starts at its dot. */
  lemma PatternMatchHasExtension(name: string, i: int)
    requires ExtensionTailAt(name, i)
    ensures HasExtension(name) && i == |name| - |Extension(name)| - 1
    ensures StripExtension(name) == name[..i]
  {
    var tail := name[i + 1..];
    forall k | 0 <= k < |tail|
      ensures tail[k] != '.' && tail[k] != '/'
    {
      assert tail[k] == name[i + 1 + k];
    }
    SuffixUnique(name, '.', Extension(name), tail);
  }

  /** `${timestamp}-${stripped name}.${extension}`. */
  function StoredFileName(now: nat, name: string): string {
    NatToDecimal(now) + "-" + StripExtension(name) + "." + Extension(name)
  }

  /** `${occurrenceId}/${fileName}`. */
  function StoragePath(occurrenceId: string, now: nat, name: string): string {
    occurrenceId + "/" + StoredFileName(now, name)
  }

  /** A name with an extension is kept whole after the timestamp. */
  lemma StoredNameKeepsName(now: nat, name: string)
    requires HasExtension(name)
    ensures StoredFileName(now, name) == NatToDecimal(now) + "-" + name
  {
    calc {
      StoredFileName(now, name);
      NatToDecimal(now) + "-" + StripExtension(name) + "." + Extension(name);
      { assert NatToDecimal(now) + "-" + StripExtension(name) + "." + Extension(name)
            == NatToDecimal(now) + "-" + (StripExtension(name) + "." + Extension(name)); }
      NatToDecimal(now) + "-" + name;
    }
  }

  /** A name without a dot is doubled: nothing is stripped, and the whole name is also the extension. */
  lemma DotlessNameDoubled(now: nat, name: string)
    requires '.' !in name
    ensures StoredFileName(now, name) == NatToDecimal(now) + "-" + name + "." + name
  {
  }

  /** `README` uploaded at time `t` is stored as `t-README.README`. */
  lemma ReadmeExample(now: nat)
    ensures StoredFileName(now, "README") == NatToDecimal(now) + "-" + "README" + "." + "README"
  {
    assert '.' !in "README";
    DotlessNameDoubled(now, "README");
  }

  /** The stored path lies in the occurrence's folder, after a numeric timestamp and a hyphen. */
  lemma StoragePathShape(occurrenceId: string, now: nat, name: string)
    ensures var p := StoragePath(occurrenceId, now, name);
      var ts := NatToDecimal(now);
      StartsWith(p, occurrenceId + "/" + ts + "-") && IsNumeral(ts)
  {
    var ts := NatToDecimal(now);
    var stem := StripExtension(name);
    var ext := Extension(name);
    assert StoragePath(occurrenceId, now, name) == occurrenceId + "/" + (ts + "-" + stem + "." + ext);
    PathRegroup(occurrenceId, ts, stem, ext);
    StartsWithConcat(occurrenceId + "/" + ts + "-", stem + "." + ext);
  }

  lemma PathRegroup(o: string, ts: string, stem: string, ext: string)
    ensures o + "/" + (ts + "-" + stem + "." + ext) == (o + "/" + ts + "-") + (stem + "." + ext)
  {
  }

  // ---------------------------------------------------------------------
  // Handler

  /** The first failing validation, in the order the handler checks them. */
  function Validate(form: UploadForm): (v: Option<BadRequestReason>)
    ensures v == Some(NoFile) <==> form.file.None?
    ensures v == Some(NoOccurrenceId) <==> form.file.Some? && !Given(form.occurrenceId)
    ensures v == Some(TypeNotAllowed) <==>
      (form.file.Some? && Given(form.occurrenceId) && !IsAllowedFileType(form.file.value.mimeType))
    ensures v == Some(TooLarge) <==>
      (form.file.Some? && Given(form.occurrenceId) && IsAllowedFileType(form.file.value.mimeType)
       && !IsAllowedFileSize(form.file.value.size))
  {
    if form.file.None? then Some(NoFile)
    else if !Given(form.occurrenceId) then Some(NoOccurrenceId)
    else if !IsAllowedFileType(form.file.value.mimeType) then Some(TypeNotAllowed)
    else if !IsAllowedFileSize(form.file.value.size) then Some(TooLarge)
    else None
  }

  /**
   * A valid request from a signed-in user naming an occurrence the user
   * can see: the file goes to storage.
   */
  predicate ReachesStorage(form: UploadForm, env: Env) {
    Validate(form).None? && env.userId.Some? && form.occurrenceId.value in env.visibleOccurrences
  }

  /** Where the file of a valid request is stored. */
  function TargetPath(form: UploadForm, env: Env): string
    requires Validate(form).None?
  {
    StoragePath(form.occurrenceId.value, env.now, form.file.value.name)
  }

  /** The handler: the response and the world after it. */
  function Upload(form: UploadForm, env: Env, w: World): (res: (Response, World))
    ensures res.0.BadRequest? || res.0.Unauthorized? || res.0.NotFound? ==> res.1 == w
    ensures res.0.BadRequest? <==> Validate(form).Some?
    ensures res.0.BadRequest? ==> res.0.reason == Validate(form).value
    ensures res.0.Unauthorized? <==> Validate(form).None? && env.userId.None?
    ensures res.0.NotFound? <==>
      Validate(form).None? && env.userId.Some? && form.occurrenceId.value !in env.visibleOccurrences
    ensures res.0.UploadFailed? <==>
      ReachesStorage(form, env) && (TargetPath(form, env) in w.objects || env.uploadFails)
    ensures res.0.MetadataFailed? <==>
      ReachesStorage(form, env) && TargetPath(form, env) !in w.objects && !env.uploadFails && env.insertFails
    ensures res.0.Uploaded? <==>
      ReachesStorage(form, env) && TargetPath(form, env) !in w.objects && !env.uploadFails && !env.insertFails
    ensures res.0.Uploaded? ==> res.0.attachment.filePath == TargetPath(form, env)
    ensures res.0.Uploaded? ==> (res.1.attachments == w.attachments + [res.0.attachment]
                                 && res.1.objects == w.objects + {res.0.attachment.filePath}
                                 && res.0.attachment.filePath !in w.objects)
    ensures res.0.UploadFailed? ==> res.1 == w
    ensures res.0.MetadataFailed? ==> (res.1.attachments == w.attachments
                                      && (env.removeFails || res.1.objects == w.objects))
    ensures res.0.MetadataFailed? && env.removeFails ==> res.1.objects == w.objects + {TargetPath(form, env)}
  {
    match Validate(form)
    case Some(reason) => (BadRequest(reason), w)
    case None =>
      var file := form.file.value;
      var occurrenceId := form.occurrenceId.value;
      if env.userId.None? then (Unauthorized, w)
      else if occurrenceId !in env.visibleOccurrences then (NotFound, w)
      else
        var path := StoragePath(occurrenceId, env.now, file.name);
        if path in w.objects || env.uploadFails then (UploadFailed, w)
        else
          var row := Attachment(occurrenceId, file.name, path, file.mimeType, file.size, env.userId.value);
          if env.insertFails then
            (MetadataFailed, w.(objects := if env.removeFails then w.objects + {path} else w.objects))
          else
            (Uploaded(row), World(w.objects + {path}, w.attachments + [row]))
  }

  /** Every 4xx answer leaves the bucket and the table as they were. */
  lemma ClientErrorsChangeNothing(form: UploadForm, env: Env, w: World)
    ensures 400 <= StatusCode(Upload(form, env, w).0) < 500 ==> Upload(form, env, w).1 == w
  {
  }

  /** An invalid upload is refused with 400 even without a session: validation runs first. */
  lemma ValidationBeforeAuthentication(form: UploadForm, env: Env, w: World)
    requires Validate(form).Some? && env.userId.None?
    ensures StatusCode(Upload(form, env, w).0) == 400
    ensures Upload(form, env, w).1 == w
  {
  }

  /** The checks run in a fixed order: a missing file is reported whatever else is wrong. */
  lemma ValidationOrder(form: UploadForm)
    ensures form.file.None? ==> Validate(form) == Some(NoFile)
    ensures form.file.Some? && form.occurrenceId == Some("") ==> Validate(form) == Some(NoOccurrenceId)
    ensures (form.file.Some? && Given(form.occurrenceId) && form.file.value.size > MaxFileSize
             && !IsAllowedFileType(form.file.value.mimeType)) ==> Validate(form) == Some(TypeNotAllowed)
  {
  }

  /** An occurrence the caller cannot see answers 404 and changes nothing. */
  lemma HiddenOccurrenceNotFound(form: UploadForm, env: Env, w: World)
    requires Validate(form).None? && env.userId.Some?
    requires form.occurrenceId.value !in env.visibleOccurrences
    ensures Upload(form, env, w) == (NotFound, w)
  {
  }

  /** Uploads never overwrite: an occupied path answers 500 and adds no metadata row. */
  lemma OccupiedPathRefused(form: UploadForm, env: Env, w: World)
    requires Validate(form).None? && env.userId.Some?
    requires form.occurrenceId.value in env.visibleOccurrences
    ensures var taken := w.(objects := w.objects + {StoragePath(form.occurrenceId.value, env.now, form.file.value.name)});
      Upload(form, env, taken) == (UploadFailed, taken) && StatusCode(Upload(form, env, taken).0) == 500
  {
  }

  /**
   * When the metadata insert fails and the clean-up succeeds, the world is
   * as it was: stated for any world in which the target path is free.
   */
  lemma MetadataFailureRollsBack(form: UploadForm, env: Env, w: World)
    requires ReachesStorage(form, env)
    requires !env.uploadFails && env.insertFails && !env.removeFails
    ensures var free := w.(objects := w.objects - {TargetPath(form, env)});
      Upload(form, env, free) == (MetadataFailed, free)
  {
  }

  /**
   * A successful upload adds exactly one object and one row, and the row
   * records the file's name, type and size, the occurrence, the stored
   * path, and the uploading user.
   */
  lemma SuccessRecordsUpload(form: UploadForm, env: Env, w: World)
    requires Upload(form, env, w).0.Uploaded?
    ensures |Upload(form, env, w).1.attachments| == |w.attachments| + 1
    ensures |Upload(form, env, w).1.objects| == |w.objects| + 1
    ensures var a := Upload(form, env, w).0.attachment;
      var f := form.file.value;
      a.fileName == f.name && a.fileType == f.mimeType && a.fileSize == f.size
      && Some(a.uploadedBy) == env.userId
      && Some(a.occurrenceId) == form.occurrenceId
      && a.filePath == StoragePath(a.occurrenceId, env.now, f.name)
      && IsAllowedFileType(a.fileType) && IsAllowedFileSize(a.fileSize)
  {
    UploadedResult(form, env, w);
    AddingNewElementGrowsSet(w.objects, TargetPath(form, env));
  }

  /** The answer and world of a successful upload, written out. */
  lemma UploadedResult(form: UploadForm, env: Env, w: World)
    requires Upload(form, env, w).0.Uploaded?
    ensures var f := form.file.value;
      var id := form.occurrenceId.value;
      var path := StoragePath(id, env.now, f.name);
      var row := Attachment(id, f.name, path, f.mimeType, f.size, env.userId.value);
      path !in w.objects && IsAllowedFileType(f.mimeType) && IsAllowedFileSize(f.size)
      && Upload(form, env, w) == (Uploaded(row), World(w.objects + {path}, w.attachments + [row]))
  {
    assert ReachesStorage(form, env);
  }

  /** Adding an element not yet present grows a set by one. */
  lemma AddingNewElementGrowsSet<T>(s: set<T>, x: T)
    requires x !in s
    ensures |s + {x}| == |s| + 1
  {
  }
}
