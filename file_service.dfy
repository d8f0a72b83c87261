/**
 * Resume validation and storage (app/services/file_service.py): a missing
 * name, then the lower-cased extension, then the size are checked, in that
 * order; an accepted file is written under the upload directory with a
 * fresh uuid and its extension as its name.
 */
module FileService {
  import opened Common
  import opened PosixPath
  import Config

  const ALLOWED_EXTENSIONS: set<string> := {".pdf", ".doc", ".docx"}

  /** 10 MiB; a file of exactly this many bytes is accepted. */
  const MAX_FILE_SIZE: nat := 10 * 1024 * 1024

  /** An uploaded file: its client-supplied name (possibly absent) and its bytes. */
  datatype Upload = Upload(filename: Option<string>, content: seq<byte>)

  /** `if not file.filename`: both an absent and an empty name count as missing. */
  predicate HasFilename(file: Upload) {
    file.filename.Some? && file.filename.value != ""
  }

  function LowerChar(c: char): char {
    if 'A' <= c <= 'Z' then (c as int + 32) as char else c
  }

  /** `str.lower()` on the ASCII letters. */
  function Lower(s: string): (r: string)
    ensures |r| == |s|
    ensures forall i :: 0 <= i < |s| ==> r[i] == LowerChar(s[i])
    ensures forall i :: 0 <= i < |r| ==> !('A' <= r[i] <= 'Z')
  {
    if s == [] then [] else [LowerChar(s[0])] + Lower(s[1..])
  }

  /** `os.path.splitext(name)[1].lower()`. */
  function Extension(name: string): string {
    Lower(SplitExt(name).1)
  }

  const NO_FILENAME := HttpError(HTTP_400_BAD_REQUEST, "No filename provided")

  /** The sorted allow-list joined with ", " is ".doc, .docx, .pdf". */
  function TypeNotAllowed(ext: string): HttpError {
    HttpError(HTTP_400_BAD_REQUEST, "File type '" + ext + "' not allowed. Accepted: .doc, .docx, .pdf")
  }

  /** MAX_FILE_SIZE // (1024 * 1024) is 10. */
  const TOO_LARGE := HttpError(HTTP_400_BAD_REQUEST, "File exceeds maximum size of 10 MB")

  /**
   * The three guards of `save_resume`, in the source's order; on success the
   * validated (lower-cased) extension.
   */
  function CheckResume(file: Upload): (r: Result<string>)
    ensures !HasFilename(file) ==> r == Err(NO_FILENAME)
    ensures HasFilename(file) && Extension(file.filename.value) !in ALLOWED_EXTENSIONS ==>
              r == Err(TypeNotAllowed(Extension(file.filename.value)))
    ensures HasFilename(file) && Extension(file.filename.value) in ALLOWED_EXTENSIONS && |file.content| > MAX_FILE_SIZE ==>
              r == Err(TOO_LARGE)
    ensures r.Ok? <==> HasFilename(file) && Extension(file.filename.value) in ALLOWED_EXTENSIONS && |file.content| <= MAX_FILE_SIZE
    ensures r.Ok? ==> r.value == Extension(file.filename.value) && r.value in ALLOWED_EXTENSIONS
  {
    if !HasFilename(file) then Err(NO_FILENAME)
    else
      var ext := Extension(file.filename.value);
      if ext !in ALLOWED_EXTENSIONS then Err(TypeNotAllowed(ext))
      else if |file.content| > MAX_FILE_SIZE then Err(TOO_LARGE)
      else Ok(ext)
  }

  predicate IsLowerHex(c: char) {
    '0' <= c <= '9' || 'a' <= c <= 'f'
  }

  /** The text of `str(uuid.uuid4())`: 8-4-4-4-12 lower-case hex digits. */
  predicate IsUuidText(u: string) {
    |u| == 36 &&
    forall i :: 0 <= i < |u| ==>
      if i == 8 || i == 13 || i == 18 || i == 23 then u[i] == '-' else IsLowerHex(u[i])
  }

  /** `os.path.join(settings.UPLOAD_DIR, f"{uuid}{ext}")`. */
  function StoredPath(uuid: string, ext: string): string {
    Join(Config.UPLOAD_DIR, uuid + ext)
  }

  /** The disk under the upload directory: path to bytes. */
  class Uploads {
    ghost var files: map<string, seq<byte>>

    constructor ()
      ensures files == map[]
    {
      files := map[];
    }

    /** Every file written here carries one of the allowed extensions and fits the size bound. */
    ghost predicate Valid()
      reads this
    {
      Storable(files)
    }

    /**
     * `save_resume`: nothing is written unless every guard passes; then
     * exactly one file, the content under the stored path, is written.
     */
    method SaveResume(file: Upload, uuid: string) returns (r: Result<string>)
      modifies this
      ensures r.Ok? <==> CheckResume(file).Ok?
      ensures r.Err? ==> r == CheckResume(file) && files == old(files)
      ensures r.Ok? ==> r.value == StoredPath(uuid, CheckResume(file).value)
      ensures r.Ok? ==> files == old(files)[r.value := file.content]
      ensures old(Valid()) && IsUuidText(uuid) ==> Valid()
    {
      if !HasFilename(file) {
        return Err(NO_FILENAME);
      }
      var ext := Extension(file.filename.value);
      if ext !in ALLOWED_EXTENSIONS {
        return Err(TypeNotAllowed(ext));
      }
      var content := file.content;
      if |content| > MAX_FILE_SIZE {
        return Err(TOO_LARGE);
      }
      var relativePath := StoredPath(uuid, ext);
      if IsUuidText(uuid) {
        StoredPathKeepsExtension(uuid, ext);
        if Valid() {
          WriteKeepsStorable(files, relativePath, content);
        }
      }
      files := files[relativePath := content];
      r := Ok(relativePath);
    }
  }

  /** Every file carries one of the allowed extensions and fits the size bound. */
  ghost predicate Storable(files: map<string, seq<byte>>) {
    forall path :: path in files ==> Extension(path) in ALLOWED_EXTENSIONS && |files[path]| <= MAX_FILE_SIZE
  }

  /** Writing a file with an allowed extension and within the size bound keeps the directory storable. */
  lemma WriteKeepsStorable(files: map<string, seq<byte>>, path: string, content: seq<byte>)
    requires Storable(files) && Extension(path) in ALLOWED_EXTENSIONS && |content| <= MAX_FILE_SIZE
    ensures Storable(files[path := content])
  {
    var files' := files[path := content];
    forall p | p in files'
      ensures Extension(p) in ALLOWED_EXTENSIONS && |files'[p]| <= MAX_FILE_SIZE
    {
      if p != path {
        assert files'[p] == files[p];
      }
    }
  }

  /** The stored path's last component is the uuid text alone. */
  lemma UploadDirBaseName(uuid: string)
    requires IsUuidText(uuid)
    ensures '/' !in uuid
    ensures BaseName(Config.UPLOAD_DIR + "/" + uuid) == uuid
  {
    assert '/' !in uuid by {
      forall i | 0 <= i < |uuid| ensures uuid[i] != '/' {
        assert IsLowerHex(uuid[i]) || uuid[i] == '-';
      }
    }
    RFindAppend(Config.UPLOAD_DIR + "/", uuid, '/');
    assert RFind(Config.UPLOAD_DIR + "/", '/') == 7;
  }

  /** A dot, then lower-case text with no dot and no slash. */
  predicate ExtensionShaped(ext: string) {
    |ext| > 0 && ext[0] == '.' && '.' !in ext[1..] && '/' !in ext && Lower(ext) == ext
  }

  lemma PdfShaped()
    ensures ExtensionShaped(".pdf")
  {
    assert ".pdf"[1..] == "pdf";
  }

  lemma DocShaped()
    ensures ExtensionShaped(".doc")
  {
    assert ".doc"[1..] == "doc";
  }

  lemma DocxShaped()
    ensures ExtensionShaped(".docx")
  {
    assert ".docx"[1..] == "docx";
  }

  /** Each allowed extension is one leading dot and lower-case dot-free, slash-free text. */
  lemma AllowedExtensionShape(ext: string)
    requires ext in ALLOWED_EXTENSIONS
    ensures ExtensionShaped(ext)
  {
    PdfShaped();
    DocShaped();
    DocxShaped();
  }

  /** The directory part of a stored path does not end in a run of dots. */
  lemma StoredStemNotAllDots(uuid: string)
    requires IsUuidText(uuid)
    ensures !AllDots(BaseName(Config.UPLOAD_DIR + "/" + uuid))
  {
    UploadDirBaseName(uuid);
    assert uuid[0] != '.';
  }

  /** A uuid name is relative, so it lands under the upload directory after one '/'. */
  lemma StoredPathText(uuid: string, ext: string)
    requires IsUuidText(uuid)
    ensures StoredPath(uuid, ext) == Config.UPLOAD_DIR + "/" + uuid + ext
  {
    assert IsLowerHex(uuid[0]) && (uuid + ext)[0] == uuid[0];
    assert Config.UPLOAD_DIR[|Config.UPLOAD_DIR| - 1] == 's';
    assert Config.UPLOAD_DIR + "/" + (uuid + ext) == Config.UPLOAD_DIR + "/" + uuid + ext;
  }

  /** The stored path's last component is the uuid followed by the extension. */
  lemma StoredBaseName(uuid: string, ext: string)
    requires IsUuidText(uuid) && ext in ALLOWED_EXTENSIONS
    ensures BaseName(Config.UPLOAD_DIR + "/" + uuid + ext) == uuid + ext
  {
    var stem := Config.UPLOAD_DIR + "/" + uuid;
    UploadDirBaseName(uuid);
    AllowedExtensionShape(ext);
    BaseNameAppend(stem, ext);
  }

  /** Splitting the stored path gives back the directory-and-uuid part and the extension. */
  lemma StoredSplitExt(uuid: string, ext: string)
    requires IsUuidText(uuid) && ext in ALLOWED_EXTENSIONS
    ensures SplitExt(Config.UPLOAD_DIR + "/" + uuid + ext) == (Config.UPLOAD_DIR + "/" + uuid, ext)
  {
    var stem := Config.UPLOAD_DIR + "/" + uuid;
    StoredStemNotAllDots(uuid);
    AllowedExtensionShape(ext);
    SplitExtOfStemAndExt(stem, ext);
  }

  /**
   * The stored name keeps the validated extension and nothing of the
   * client's name: splitting the stored path gives back exactly `ext`.
   */
  lemma StoredPathKeepsExtension(uuid: string, ext: string)
    requires IsUuidText(uuid) && ext in ALLOWED_EXTENSIONS
    ensures StoredPath(uuid, ext) == Config.UPLOAD_DIR + "/" + uuid + ext
    ensures BaseName(StoredPath(uuid, ext)) == uuid + ext
    ensures SplitExt(StoredPath(uuid, ext)) == (Config.UPLOAD_DIR + "/" + uuid, ext)
    ensures Extension(StoredPath(uuid, ext)) == ext
  {
    StoredPathText(uuid, ext);
    StoredBaseName(uuid, ext);
    StoredSplitExt(uuid, ext);
    AllowedExtensionShape(ext);
  }

  /**
   * The size bound is inclusive: for any name, content of MAX_FILE_SIZE bytes
   * gets the name guards' verdict, and one byte more turns only an acceptance
   * into the size error.
   */
  lemma SizeBoundary(name: string, atMax: seq<byte>, overMax: seq<byte>)
    requires |atMax| == MAX_FILE_SIZE && |overMax| == MAX_FILE_SIZE + 1
    ensures name != "" && Extension(name) in ALLOWED_EXTENSIONS ==>
              CheckResume(Upload(Some(name), atMax)) == Ok(Extension(name))
    ensures CheckResume(Upload(Some(name), overMax))
            == if CheckResume(Upload(Some(name), atMax)).Ok? then Err(TOO_LARGE) else CheckResume(Upload(Some(name), atMax))
  {
  }

  /**
   * The name guards run before the content is read: a file whose name is
   * missing or whose type is refused is refused the same way whatever its bytes.
   */
  lemma NameChecksIgnoreContent(name: Option<string>, c1: seq<byte>, c2: seq<byte>)
    requires CheckResume(Upload(name, c1)) != Err(TOO_LARGE) && CheckResume(Upload(name, c1)).Err?
    ensures CheckResume(Upload(name, c2)) == CheckResume(Upload(name, c1))
  {
  }

  /**
   * A name whose last component ends in a dot-led suffix, after some
   * character that is not a dot, has that suffix, lower-cased, as its extension.
   */
  lemma ExtensionOfStemAndSuffix(stem: string, ext: string)
    requires |ext| > 0 && ext[0] == '.' && '.' !in ext[1..] && '/' !in ext
    requires !AllDots(BaseName(stem))
    ensures Extension(stem + ext) == Lower(ext)
  {
    SplitExtOfStemAndExt(stem, ext);
  }

  lemma LowerPdf()
    ensures Lower(".PDF") == ".pdf"
  {
  }

  lemma LowerExe()
    ensures Lower(".exe") == ".exe"
  {
  }

  lemma ExeNotAllowed()
    ensures ".exe" !in ALLOWED_EXTENSIONS
  {
    assert ".exe"[1] == 'e';
  }

  /** Extensions compare case-insensitively: "resume.PDF" is accepted as ".pdf". */
  lemma UpperCaseExtensionAccepted(stem: string, content: seq<byte>)
    requires !AllDots(BaseName(stem)) && |content| <= MAX_FILE_SIZE
    ensures CheckResume(Upload(Some(stem + ".PDF"), content)) == Ok(".pdf")
  {
    assert ".PDF"[1..] == "PDF";
    ExtensionOfStemAndSuffix(stem, ".PDF");
    LowerPdf();
  }

  /** A foreign extension such as that of "malware.exe" is refused, whatever the size. */
  lemma ForeignExtensionRefused(stem: string, content: seq<byte>)
    requires !AllDots(BaseName(stem))
    ensures CheckResume(Upload(Some(stem + ".exe"), content)) == Err(TypeNotAllowed(".exe"))
  {
    assert HasFilename(Upload(Some(stem + ".exe"), content));
    assert Extension(stem + ".exe") == ".exe" by {
      ExtensionOfStemAndSuffix(stem, ".exe");
      LowerExe();
    }
    ExeNotAllowed();
  }

  /** A named file without an extension is refused as type ''. */
  lemma NoExtensionRefused(file: Upload)
    requires HasFilename(file) && SplitExt(file.filename.value).1 == []
    ensures CheckResume(file) == Err(TypeNotAllowed(""))
  {
    assert Extension(file.filename.value) == Lower([]) == [];
    assert [] !in ALLOWED_EXTENSIONS by {
      assert forall e :: e in ALLOWED_EXTENSIONS ==> |e| > 0;
    }
  }

  /** A dot-file such as ".pdf" has no extension, so it is refused. */
  lemma DotFileRefused(name: string, content: seq<byte>)
    requires name == ".pdf"
    ensures CheckResume(Upload(Some(name), content)) == Err(TypeNotAllowed(""))
  {
    assert '/' !in name && forall j :: 0 < j < |name| ==> name[j] != '.';
    NoInnerDotNoExtension(name);
    NoExtensionRefused(Upload(Some(name), content));
  }

  /** A name without any dot has no extension, so it is refused. */
  lemma BareNameRefused(name: string, content: seq<byte>)
    requires name == "resume"
    ensures CheckResume(Upload(Some(name), content)) == Err(TypeNotAllowed(""))
  {
    assert '/' !in name && forall j :: 0 < j < |name| ==> name[j] != '.';
    NoInnerDotNoExtension(name);
    NoExtensionRefused(Upload(Some(name), content));
  }
}
