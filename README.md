# Lead-intake service: a verified Dafny model

This project models the core of a small lead-intake service in Dafny.

- **Public submission.** A prospect submits a lead: name, email and an optional resume. The resume passes a file-type and size gate before it is written to an upload directory. The lead is stored as PENDING and two notifications go out (the prospect first, then an attorney).
- **Internal review.** An authenticated internal user lists, reads and advances leads along the only edge of a two-state machine, PENDING to REACHED_OUT. The transition sends two more notifications.
- **Access control.** Internal endpoints sit behind a login guard chain and a bearer-token guard.
- **Submission script.** A command-line script builds the `multipart/form-data` request body by hand.

There is one Dafny module per core source file, plus four helper modules:

| module | file | models |
|---|---|---|
| `LeadModel` | lead_model.dfy | the `Lead` record and the `LeadState` enum (app/models/lead.py) |
| `FileService` | file_service.dfy | `save_resume`, `ALLOWED_EXTENSIONS`, `MAX_FILE_SIZE` (app/services/file_service.py) |
| `EmailService` | email_service.dfy | `LoggingEmailService.send_email`, `get_email_service` (app/services/email_service.py) |
| `LeadService` | lead_service.dfy | `create_lead`, `get_lead`, `list_leads`, `update_lead_state` (app/services/lead_service.py) |
| `Auth` | auth.dfy | `login` (app/api/endpoints/auth.py) |
| `Dependencies` | dependencies.dfy | `get_current_user` (app/api/dependencies.py) |
| `Multipart` | multipart.dfy | `build_multipart` (scripts/submit_lead.py) |
| `Common` | common.dfy | `Option`, `Result` (a value or the `HTTPException` raised), bytes, status codes |
| `Config` | config.dfy | the settings the services read: `UPLOAD_DIR`, `ATTORNEY_EMAILS`, the internal user |
| `PosixPath` | posix_path.dfy | `os.path.splitext`, `basename` and `join` with POSIX semantics |
| `Utf8` | utf8.dfy | `str.encode()` |

State that the source changes in place is modelled by classes:

- `LeadDb.leads`, a `map` from id to `Lead`, stands for the `leads` table.
- `LoggingEmailService.log`, a `seq` of `Email`, is the outbox in sending order.
- `Uploads.files`, a ghost `map` from path to bytes, is the upload directory on disk.

Each service call returns a `Result`: `Err(HttpError(status, detail))` for every `HTTPException` the source raises, with the source's status codes and detail texts.

Randomness and the clock are parameters:

- the uuid4 default of the id column is `leadId`, required to be absent from the table;
- the uuid4 of a stored resume name is `resumeUuid`, which must have the canonical 36-character lower-case form;
- the server's `func.now()` is `now`.

The following become function-typed parameters about which the model assumes nothing: the bcrypt check (`verifyPassword`), token signing (`createAccessToken`) and token decoding (`decodeAccessToken`). Two more values are plain parameters: `mimetypes.guess_type`'s answer (`guessedType`) and the file's bytes (`fileData`).

Some behaviour of the code that a reader might expect to be otherwise:

- **Size bound.** Content of exactly `MAX_FILE_SIZE` bytes is accepted; only larger content is refused (`>` at app/services/file_service.py:26).
- **Resume optional.** The resume is optional in `create_lead`, as the service signature (app/services/lead_service.py:17) and tests/test_leads_public.py:8-20 have it. The HTTP layer declares it required (app/api/endpoints/leads.py:19).
- **No concurrency guard.** In `update_lead_state`, the read at app/services/lead_service.py:66 and the write at lines 74-75 are not guarded. The model runs each call as one atomic step and claims no compare-and-swap behaviour.
- **No field checks.** `create_lead` checks neither the names nor the email; any checks belong to the HTTP layer's form parsing, which is not modelled.

## Model

| member | source | states |
|---|---|---|
| `LeadModel.ParseLeadState` | app/models/lead.py:11-13 | exactly the two strings "PENDING" and "REACHED_OUT" name a state, and the state found has that string as its value |
| `LeadModel.ParseValue` | app/models/lead.py:11-13 | each state's value parses back to that state, so the two values are distinct |
| `LeadModel.NewLead` | app/models/lead.py:19-34 | a freshly inserted row carries the given id, names, email and resume path, is PENDING, and has `created_at` and `updated_at` both equal to `now` |
| `PosixPath.RFind` | app/services/file_service.py:18 | the index of the last occurrence of a character, or -1 when it does not occur |
| `PosixPath.BaseName` | scripts/submit_lead.py:27 | the part after the last '/': it contains no '/', it is a suffix of the path, and a '/' precedes it whenever it is shorter than the path |
| `PosixPath.Join` | app/services/file_service.py:33 | an absolute second part replaces the first; an empty first part yields the second; otherwise a '/' is inserted between them unless the first part already ends with one |
| `PosixPath.SplitExt` | app/services/file_service.py:18 | root and extension concatenate back to the path; the extension is empty exactly when no dot follows a non-dot in the basename; otherwise it starts with its only '.' and lies within the basename |
| `PosixPath.ExtensionFound` | app/services/file_service.py:18 | a last dot preceded by a non-dot within the last component starts an extension: one dot, then no dot and no '/' |
| `PosixPath.NoExtension` | app/services/file_service.py:18 | without such a dot the last component is a run of leading dots followed by dot-free text |
| `PosixPath.SlashFreeBaseName` | scripts/submit_lead.py:27 | a path without '/' is its own basename |
| `PosixPath.NoInnerDotNoExtension` | app/services/file_service.py:18 | a slash-free name with no dot after its first character has an empty extension |
| `PosixPath.BaseNameAppend` | app/services/file_service.py:32-33 | appending slash-free text extends the basename by that text |
| `PosixPath.RFindAppend` | app/services/file_service.py:18 | appending text free of a character does not move that character's last occurrence |
| `PosixPath.SplitExtOfStemAndExt` | app/services/file_service.py:18 | a path made of a stem (whose basename is not all dots) and a one-dot suffix splits back into exactly that stem and suffix |
| `FileService.Lower` | app/services/file_service.py:18 | same length as the input, each character lower-cased (ASCII letters only), and no upper-case ASCII letter left |
| `FileService.Extension` | app/services/file_service.py:18 | `splitext(name)[1].lower()`; what it yields for the names the service meets is proved by `ExtensionOfStemAndSuffix`, `NoExtensionRefused`, `DotFileRefused` and `BareNameRefused` |
| `FileService.TypeNotAllowed` | app/services/file_service.py:19-23 | a 400 naming the refused extension and listing the sorted allow-list ".doc, .docx, .pdf" |
| `FileService.CheckResume` | app/services/file_service.py:12-30 | the three guards in order: a missing or empty filename gives "No filename provided"; an extension outside the allow-list gives the type error naming it; content over 10 MiB gives the size error; it succeeds exactly when all three pass, with the lower-cased extension |
| `FileService.Uploads.SaveResume` | app/services/file_service.py:12-37 | a refusal returns `CheckResume`'s error and writes nothing; on success the content is written under the stored path, replacing whatever that path held, no other file changes, and that path is returned; with a uuid name, every file in the upload directory still has an allowed extension and is within `MAX_FILE_SIZE` |
| `FileService.WriteKeepsStorable` | app/services/file_service.py:19-35 | writing content that passed the extension check (line 19) and the size check (line 26) keeps every file in the upload directory with an allowed extension and within `MAX_FILE_SIZE` |
| `FileService.AllowedExtensionShape` | app/services/file_service.py:8 | each allowed extension is one leading dot followed by lower-case text with no dot and no '/' |
| `FileService.StoredStemNotAllDots` | app/services/file_service.py:32-33 | the last component of the directory-and-uuid part of a stored path is not a run of dots |
| `FileService.StoredPath` | app/services/file_service.py:32-33 | `os.path.join(UPLOAD_DIR, uuid + ext)`; its shape is proved by `StoredPathKeepsExtension` |
| `FileService.StoredPathText` | app/services/file_service.py:32-33 | for a uuid name the joined path is "uploads" + "/" + uuid + extension |
| `FileService.StoredBaseName` | app/services/file_service.py:32-33 | the stored path's basename is uuid + extension |
| `FileService.StoredSplitExt` | app/services/file_service.py:32-33 | splitting the stored path yields the directory-and-uuid part and exactly the validated extension |
| `FileService.UploadDirBaseName` | app/services/file_service.py:32-33 | a uuid text contains no '/', so it is the last component of the path under the upload directory |
| `FileService.StoredPathKeepsExtension` | app/services/file_service.py:32-37 | the stored path is "uploads/" + uuid + extension; it depends only on the uuid and the validated extension, not on the uploaded name; its basename is uuid + extension, and splitting it again yields the same extension |
| `FileService.SizeBoundary` | app/services/file_service.py:26-30 | for any name, content of exactly 10·1024·1024 bytes gets the name guards' verdict (accepted with its extension when the name passes them), and one more byte changes only an acceptance, into the size error |
| `FileService.NameChecksIgnoreContent` | app/services/file_service.py:13-26 | a filename or type refusal does not depend on the content: any other content gets the same error |
| `FileService.ExtensionOfStemAndSuffix` | app/services/file_service.py:18 | the extension of stem + suffix is the lower-cased suffix |
| `FileService.UpperCaseExtensionAccepted` | app/services/file_service.py:18-19 | "<stem>.PDF" within the size bound is accepted with extension ".pdf" |
| `FileService.ForeignExtensionRefused` | app/services/file_service.py:19-23 | "<stem>.exe" is refused with "File type '.exe' not allowed…" whatever its content |
| `FileService.NoExtensionRefused` | app/services/file_service.py:18-23 | a named file whose name has an empty extension is refused as type '' whatever its content |
| `FileService.DotFileRefused` | app/services/file_service.py:18-23 | ".pdf" has an empty extension and is refused as type '' |
| `FileService.BareNameRefused` | app/services/file_service.py:18-23 | "resume" has an empty extension and is refused as type '' |
| `EmailService.LoggingEmailService.SendEmail` | app/services/email_service.py:13-15 | appends exactly the message (recipient, subject, body) to the outbox; no failure path, no result |
| `EmailService.GetEmailService` | app/services/email_service.py:18-19 | always a fresh logging notifier with an empty outbox |
| `LeadService.SubmissionAck` | app/services/lead_service.py:33-38 | addressed to the prospect's email, subject "Thank you for your submission", body opening "Hi " + first name |
| `LeadService.NewLeadAlert` | app/services/lead_service.py:39-44 | addressed to `ATTORNEY_EMAILS[0]`, subject "New lead submitted", body ending with the prospect's email in parentheses |
| `LeadService.CreateLead` | app/services/lead_service.py:11-46 | keeps ids keyed, no row updated before it was created, every stored resume on disk, and every file on disk with an allowed extension and within `MAX_FILE_SIZE`; succeeds exactly when no resume is given or the resume passes every guard; a refusal returns that guard's error and changes neither the table, the outbox nor the upload directory; on success it inserts under the fresh id the row with those names and email, state PENDING, both timestamps `now`, and resume path None or the stored path; exactly one file is written when a resume is given; exactly two messages are sent, the acknowledgement to the prospect and then the alert to `ATTORNEY_EMAILS[0]` |
| `LeadService.SaveResumeIfGiven` | app/services/lead_service.py:19-21 | no resume: nothing is written and the path is None; a resume: `save_resume`'s outcome; every file in the upload directory keeps an allowed extension and stays within `MAX_FILE_SIZE` |
| `LeadService.SendPair` | app/services/lead_service.py:33-44 | the outbox grows by the two messages, in the given order |
| `LeadService.InsertKeepsInvariants` | app/services/lead_service.py:23-30 | inserting a row under a fresh id whose `created_at` is not after its `updated_at` keeps every row under its own id, keeps `created_at <= updated_at` on every row, and keeps every resume it names among the written files |
| `LeadService.GetLead` | app/services/lead_service.py:54-60 | succeeds exactly when the id is stored, with that row (whose id is the one asked for); otherwise 404 "Lead not found"; it reads and changes nothing else |
| `LeadService.NewestExists` | app/services/lead_service.py:50 | a non-empty table has a row no other row is newer than |
| `LeadService.PrependNewest` | app/services/lead_service.py:50 | a newest row followed by a newest-first listing of the other rows lists the whole table newest first |
| `LeadService.NewestFirst` | app/services/lead_service.py:50 | every table has a newest-first listing: each stored row exactly once, `created_at` non-increasing |
| `LeadService.ListLeads` | app/services/lead_service.py:49-51 | returns every stored row exactly once and nothing else, ordered by `created_at` non-increasing |
| `LeadService.DropFirst` | app/services/lead_service.py:50 | without its first row, a newest-first listing lists the rest of the table |
| `LeadService.ListingEmptyIff` | app/services/lead_service.py:49-51 | a listing is empty exactly when the table is |
| `LeadService.NewestFirstUnique` | app/services/lead_service.py:50 | when no two rows share a timestamp, the listing is unique: read-back order is fully determined by `created_at` |
| `LeadService.CanTransition` | app/services/lead_service.py:68 | the guard lets a request through exactly when the current state's value is "PENDING" and the requested one's is "REACHED_OUT" |
| `LeadService.MarkedReachedOut` | app/services/lead_service.py:74-76 | the row after a transition is REACHED_OUT with `updated_at` now, and restoring those two columns gives back the old row, so nothing else changes |
| `LeadService.ReachedOutNotice` | app/services/lead_service.py:78-83 | addressed to the lead's email, subject "An attorney has reached out", body opening "Hi " + first name |
| `LeadService.ReachedOutAlert` | app/services/lead_service.py:84-89 | addressed to `ATTORNEY_EMAILS[0]`, subject "Lead marked as reached out", body ending with the lead's email and ") has been marked as REACHED_OUT." |
| `LeadService.UpdateLeadState` | app/services/lead_service.py:63-91 | given a clock reading no earlier than the row's `created_at`, keeps ids keyed and `created_at <= updated_at` on every row; an absent id fails with 404 before the guard is consulted; the call succeeds exactly when the row is PENDING and REACHED_OUT is requested, and otherwise fails with 400 "Can only transition from PENDING to REACHED_OUT"; a failure changes neither the table nor the outbox; on success only `state` (now REACHED_OUT) and `updated_at` (now) change in that one row, and exactly two messages are sent, to the prospect and then to `ATTORNEY_EMAILS[0]` |
| `LeadService.TransitionKeepsInvariants` | app/services/lead_service.py:74-76 | a transition at a clock reading no earlier than the row's `created_at` keeps ids keyed, `created_at <= updated_at` on every row, and resumes on disk |
| `LeadService.Replay` | app/services/lead_service.py:66-76 | the final state and the number of successes of a series of transition requests on one lead, each passing the line-68 guard or not; its meaning is `AtMostOneTransition` and its link to the real method is `UpdateRepeatedly` |
| `LeadService.ReplayStep` | app/services/lead_service.py:68-76 | replaying from the i-th request is one guarded step, counted exactly when the guard passes, followed by the rest |
| `LeadService.AtMostOneTransition` | app/services/lead_service.py:68-72 | over any series of requests on one lead, at most one succeeds; from REACHED_OUT none succeeds and the state stays; one succeeds exactly when the lead starts PENDING and REACHED_OUT is requested; the final state is REACHED_OUT exactly when it started there or it was requested |
| `LeadService.RequestOnce` | app/services/lead_service.py:63-91 | one `update_lead_state` call on a stored lead succeeds exactly when the guard passes, moves the state to REACHED_OUT only then, sends two messages only then, keeps `created_at` and the table invariants, and touches no other row |
| `LeadService.UpdateRepeatedly` | app/services/lead_service.py:63-91 | calling `update_lead_state` for each request in turn ends in the state `Replay` predicts with as many successes as it counts, hence at most one; the outbox grows by two messages per success, `created_at` and the table invariants are kept, and no other row changes |
| `LeadService.ReachOutTwice` | tests/test_leads_internal.py:66-82 | on a PENDING lead, with clock readings no earlier than its `created_at`, the first request succeeds, the second fails with 400, and exactly two notifications are sent in total |
| `Auth.Login` | app/api/endpoints/auth.py:10-26 | guards in order: a wrong username gives 401 "Invalid credentials" whatever the password; then an empty configured hash gives 401 "Internal user not configured"; then a rejected password gives 401 "Invalid credentials"; it succeeds exactly when all three pass, with a bearer token for the configured username; every failure is a 401 |
| `Auth.DefaultSettingsRefuseEveryone` | app/api/endpoints/auth.py:16-20 | under the default settings, with no hash configured, every login fails, and the configured username is told it is not configured |
| `Auth.PasswordMattersOnlyThroughVerifier` | app/api/endpoints/auth.py:12-24 | for one token signer (one clock reading, since the token's `exp` claim comes from the clock at app/core/security.py:20), two logins with the same username and the same verifier verdict get the same outcome, so the password is irrelevant once the username is wrong |
| `Dependencies.GetCurrentUser` | app/api/dependencies.py:10-19 | an undecodable token fails; it succeeds exactly when the decoded subject is the configured username, returns that username, and every failure is 401 "Invalid or expired token" |
| `Dependencies.IssuedTokenAccepted` | app/api/dependencies.py:13-19 | a token from a successful login is accepted for the same user whenever decoding recovers a created token's subject |
| `Utf8.EncodeChar` | scripts/submit_lead.py:21-24 | one to four bytes per code point; a single byte, equal to the code, exactly for ASCII; every byte of a non-ASCII character is at least 0x80 |
| `Utf8.Enc` | scripts/submit_lead.py:21-24 | `str.encode()` as the concatenation of each code point's UTF-8 bytes; its properties are `EncAppend` and `EncAscii` |
| `Utf8.EncAppend` | scripts/submit_lead.py:21-24 | encoding distributes over concatenation |
| `Utf8.EncAscii` | scripts/submit_lead.py:21-24 | an ASCII string encodes byte for byte |
| `Multipart.JoinCrlf` | scripts/submit_lead.py:40 | `b"\r\n".join(lines)`; its properties are `JoinAppend` and `JoinEndsWithLast` |
| `Multipart.JoinAppend` | scripts/submit_lead.py:40 | joining two non-empty runs of lines puts exactly one CRLF between them |
| `Multipart.JoinEndsWithLast` | scripts/submit_lead.py:40 | the joined body ends with the last line, with no CRLF after it |
| `Multipart.ContentTypeOf` | scripts/submit_lead.py:28 | the guessed type when there is a non-empty one, otherwise "application/octet-stream" |
| `Multipart.FieldLines` | scripts/submit_lead.py:20-24 | four lines per field in insertion order; its layout is `FieldLinesLength` and `FieldLinesAt` |
| `Multipart.Lines` | scripts/submit_lead.py:20-39 | the field lines, the file part for a non-empty path, then the close line; its layout is `LinesCount`, `FilePartAfterFields` and `LastLineCloses` |
| `Multipart.MultipartContentType` | scripts/submit_lead.py:41 | the header value "multipart/form-data; boundary=" + boundary, which `BuildMultipart` returns |
| `Multipart.BuildMultipart` | scripts/submit_lead.py:15-42 | the body is the CRLF-joined lines: each field's four lines in insertion order, the five-line file part only for a non-empty path, then the close delimiter; the header is "multipart/form-data; boundary=" + boundary |
| `Multipart.FieldLinesLength` | scripts/submit_lead.py:20-24 | each field contributes exactly four lines |
| `Multipart.FieldLinesAt` | scripts/submit_lead.py:20-24 | lines 4i to 4i+3 of the field lines are `--B`, the disposition naming the i-th key, an empty line and the i-th value |
| `Multipart.LinesCount` | scripts/submit_lead.py:20-40 | there are 4·\|fields\| + (5 with a file, else 0) + 1 lines |
| `Multipart.FieldPartAt` | scripts/submit_lead.py:20-24 | the i-th field's four lines sit at positions 4i to 4i+3 of the whole body |
| `Multipart.FilePartAfterFields` | scripts/submit_lead.py:26-37 | with a path, the five lines after the fields are `--B`, the disposition with name "resume" and the path's basename, the content type with its fallback, an empty line, and the bytes |
| `Multipart.LastLineCloses` | scripts/submit_lead.py:39 | the last line is always `--B--`, with or without fields |
| `Multipart.BodyEndsWithClose` | scripts/submit_lead.py:39-40 | the body ends with the close delimiter, with no trailing CRLF |
| `Multipart.EmptyFormIsCloseDelimiter` | scripts/submit_lead.py:18-40 | with no field and no file the body is the `--B--` line alone |
| `Multipart.EmptyFormIsNoMultipartBody` | scripts/submit_lead.py:18-40 | that lone `--B--` body equals no RFC 2046 body of any non-empty list of parts, since it is two bytes shorter than every close-delimiter |
| `Multipart.JoinHeaders` | scripts/submit_lead.py:31-37 | header lines, an empty line and content join into the CRLF-terminated header block, CRLF, and the content |
| `Multipart.JoinPart` | scripts/submit_lead.py:21-24 | a part's joined lines are the dash-boundary, CRLF and the body-part |
| `Multipart.JoinAllParts` | scripts/submit_lead.py:20-37 | the joined lines of all parts are the dash-boundary, the first body-part and one encapsulation per further part |
| `Multipart.FieldPartIsPart` | scripts/submit_lead.py:21-24 | a field's lines are those of a form-data part with that name, no filename and no type |
| `Multipart.FilePartIsPart` | scripts/submit_lead.py:31-37 | the file's lines are those of the part named "resume" with that filename and type |
| `Multipart.FieldLinesAreParts` | scripts/submit_lead.py:20-24 | the field lines are the lines of the field parts in order |
| `Multipart.AllPartLinesSnoc` | scripts/submit_lead.py:20-37 | appending a part appends exactly its lines |
| `Multipart.LinesAreParts` | scripts/submit_lead.py:20-39 | the collected lines are the parts' lines followed by the close line |
| `Multipart.CloseLine` | scripts/submit_lead.py:39-40 | CRLF followed by the `--B--` line is the RFC 2046 close-delimiter |
| `Multipart.BodyIsRfc2046` | scripts/submit_lead.py:18-42 | with at least one part, the body equals the RFC 2046 section 5.1.1 multipart body (dash-boundary, CRLF, first body-part, then per part a delimiter, CRLF and body-part, then the close-delimiter) of the parts the fields and file describe, each with the script's own header lines; this is the RFC 2046 framing only, not a check of the header syntax |

## Left out

- HTTP wiring (app/api/endpoints/leads.py, app/api/router.py, app/main.py) is not part of this model. The endpoint's call of `update_lead_state` at app/api/endpoints/leads.py:60 passes three arguments to a four-parameter function; the model follows the service signature.
- Form validation (pydantic `EmailStr`, required form fields, status 422) belongs to the HTTP layer; `create_lead` accepts any strings.
- Password hashing, token signing, token expiry and the wall clock (app/core/security.py) are opaque parameters whose behaviour is not modelled.
- Database behaviour (sessions, flush and refresh, SQL) is reduced to a map update. The `func.now()` server default and the uuid4 generators become the `now`, `leadId` and `resumeUuid` parameters.
- Among rows with equal `created_at`, the order that `list_leads` returns is left unspecified, as the SQL query leaves it.
- Concurrency (async scheduling; the unguarded read-then-write race in `update_lead_state`) is not modelled: each call is one atomic step.
- The abstract `EmailService` base class is not modelled separately: the model fixes its only implementation, `LoggingEmailService`. Its console and logger output is modelled as the outbox sequence.
- Reading the upload (`await file.read()`) and writing the file to disk are modelled as the upload's content and an insert into the ghost `files` map. I/O errors are not modelled.
- Settings loading from the environment and `.env` (app/core/config.py) is not modelled. The upload directory and attorney addresses are fixed at their defaults; the internal user is a parameter of the auth checks.
- In `build_multipart`, the file read, the `uuid4().hex` boundary and the `mimetypes` lookup become parameters. Nothing is proved about the boundary being absent from the field values or the file bytes.
- The other scripts, app/seed.py and the tests are not part of this model, except as the source of the `ReachOutTwice` scenario.
- `FileService.CheckResume`: `str.lower` is modelled on ASCII letters only. No non-ASCII character lowers to one of the letters of ".pdf", ".doc" or ".docx", so the accept/refuse verdict is unaffected. The error text of a refused non-ASCII extension may differ from Python's.
- `Utf8.Enc`: Dafny strings cannot hold lone surrogates, so the `UnicodeEncodeError` that `str.encode()` raises on them is not modelled.
- `Multipart.BodyIsRfc2046`: proves the RFC 2046 section 5.1.1 framing only. The script pastes field keys and the file's basename into its Content-Disposition lines without quoting or escaping, so a key or filename containing `"`, CR or LF yields a header line that RFC 7578 does not allow; the model reproduces this and proves nothing about header syntax.
- `LeadService.ListLeads`: the result is specified, not computed. It is a ghost method that picks one of the newest-first listings of the table, and one always exists (`NewestFirst`); the SQL sort itself is not modelled, so no executable listing is produced.
- `LeadService.UpdateRepeatedly`: every call in the series is given the same clock reading `now`; only `updated_at` depends on it, and at most one call writes it.
- `LeadService.UpdateLeadState` and the methods built on it require the clock reading `now` to be no earlier than the row's `created_at`. The server clock gives this (the row's `created_at` was an earlier reading of it), but the model has no clock, so it is stated as a precondition; a clock set backwards is not modelled.
