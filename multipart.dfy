/**
 * `build_multipart` from the lead-submission script: a `multipart/form-data`
 * body whose parts are framed by the dash-boundary, delimiter and
 * close-delimiter of section 5.1.1 of RFC 2046, each part's header lines
 * being the script's own (names and filenames are inserted unquoted). The boundary, the MIME type
 * guessed for the file, and the file's bytes are parameters.
 */
module Multipart {
  import opened Common
  import opened Utf8
  import PosixPath

  const CRLF: seq<byte> := [13, 10]

  const DISPOSITION := "Content-Disposition: form-data; name=\""
  const FILENAME_PARAM := "\"; filename=\""
  const CONTENT_TYPE := "Content-Type: "
  const OCTET_STREAM := "application/octet-stream"
  const FILE_FIELD := "resume"

  /** `b"\r\n".join(lines)`: CRLF between consecutive lines, none after the last. */
  function JoinCrlf(lines: seq<seq<byte>>): seq<byte> {
    if |lines| == 0 then []
    else if |lines| == 1 then lines[0]
    else lines[0] + CRLF + JoinCrlf(lines[1..])
  }

  /** Joining two non-empty runs of lines puts one CRLF between them. */
  lemma {:induction false} JoinAppend(xs: seq<seq<byte>>, ys: seq<seq<byte>>)
    requires |xs| > 0 && |ys| > 0
    ensures JoinCrlf(xs + ys) == JoinCrlf(xs) + CRLF + JoinCrlf(ys)
    decreases |xs|
  {
    if |xs| == 1 {
      assert (xs + ys)[1..] == ys;
    } else {
      assert (xs + ys)[1..] == xs[1..] + ys;
      JoinAppend(xs[1..], ys);
    }
  }

  /** The joined lines end with the last line. */
  lemma {:induction false} JoinEndsWithLast(lines: seq<seq<byte>>)
    requires |lines| > 0
    ensures var body := JoinCrlf(lines);
            var last := lines[|lines| - 1];
            |last| <= |body| && body[|body| - |last|..] == last
    decreases |lines|
  {
    if |lines| > 1 {
      JoinEndsWithLast(lines[1..]);
    }
  }

  /** The four lines `--B`, the disposition naming `key`, an empty line, the value. */
  function FieldPart(boundary: string, key: string, value: string): seq<seq<byte>> {
    [Enc("--" + boundary), Enc(DISPOSITION + key + "\""), [], Enc(value)]
  }

  /** The lines of every field, in the dictionary's insertion order. */
  function FieldLines(boundary: string, fields: seq<(string, string)>): seq<seq<byte>> {
    if fields == [] then []
    else
      var last := fields[|fields| - 1];
      FieldLines(boundary, fields[..|fields| - 1]) + FieldPart(boundary, last.0, last.1)
  }

  /** `if file_path:` — a missing and an empty path both mean no file. */
  predicate HasFile(filePath: Option<string>) {
    filePath.Some? && filePath.value != []
  }

  /** `guess_type(...)[0] or "application/octet-stream"`. */
  function ContentTypeOf(guessedType: Option<string>): (r: string)
    ensures guessedType.Some? && guessedType.value != [] ==> r == guessedType.value
    ensures guessedType.None? || guessedType.value == [] ==> r == OCTET_STREAM
    ensures r != []
  {
    if guessedType.Some? && guessedType.value != [] then guessedType.value else OCTET_STREAM
  }

  /** The five lines of the file part. */
  function FilePart(boundary: string, filename: string, contentType: string, data: seq<byte>): seq<seq<byte>> {
    [Enc("--" + boundary), Enc(DISPOSITION + FILE_FIELD + FILENAME_PARAM + filename + "\""),
     Enc(CONTENT_TYPE + contentType), [], data]
  }

  /** Every line `build_multipart` collects, in order. */
  function Lines(boundary: string, fields: seq<(string, string)>, filePath: Option<string>,
                 guessedType: Option<string>, fileData: seq<byte>): seq<seq<byte>> {
    FieldLines(boundary, fields)
    + (if HasFile(filePath)
       then FilePart(boundary, PosixPath.BaseName(filePath.value), ContentTypeOf(guessedType), fileData)
       else [])
    + [Enc("--" + boundary + "--")]
  }

  /** The value of the request's Content-Type header. */
  function MultipartContentType(boundary: string): string {
    "multipart/form-data; boundary=" + boundary
  }

  /**
   * `build_multipart`: one loop over the fields appending four lines each,
   * then the file part if a path is given, then the close delimiter; the
   * body is the lines joined by CRLF.
   */
  method BuildMultipart(boundary: string, fields: seq<(string, string)>, filePath: Option<string>,
                        guessedType: Option<string>, fileData: seq<byte>)
    returns (body: seq<byte>, contentType: string)
    ensures body == JoinCrlf(Lines(boundary, fields, filePath, guessedType, fileData))
    ensures contentType == MultipartContentType(boundary)
  {
    var lines: seq<seq<byte>> := [];
    for i := 0 to |fields|
      invariant lines == FieldLines(boundary, fields[..i])
    {
      var key, value := fields[i].0, fields[i].1;
      assert fields[..i + 1][..i] == fields[..i] && fields[..i + 1][i] == fields[i];
      ghost var before := lines;
      lines := lines + [Enc("--" + boundary)];
      lines := lines + [Enc(DISPOSITION + key + "\"")];
      lines := lines + [[]];
      lines := lines + [Enc(value)];
      AppendFour(before, Enc("--" + boundary), Enc(DISPOSITION + key + "\""), [], Enc(value));
    }
    assert fields[..|fields|] == fields;
    ghost var fieldLines := lines;
    if filePath.Some? && filePath.value != [] {
      var filename := PosixPath.BaseName(filePath.value);
      var fileContentType := ContentTypeOf(guessedType);
      lines := lines + [Enc("--" + boundary)];
      lines := lines + [Enc(DISPOSITION + FILE_FIELD + FILENAME_PARAM + filename + "\"")];
      lines := lines + [Enc(CONTENT_TYPE + fileContentType)];
      lines := lines + [[]];
      lines := lines + [fileData];
      AppendFive(fieldLines, Enc("--" + boundary), Enc(DISPOSITION + FILE_FIELD + FILENAME_PARAM + filename + "\""),
                 Enc(CONTENT_TYPE + fileContentType), [], fileData);
    }
    lines := lines + [Enc("--" + boundary + "--")];
    assert lines == Lines(boundary, fields, filePath, guessedType, fileData);
    body := JoinCrlf(lines);
    contentType := MultipartContentType(boundary);
  }

  lemma AppendFour(xs: seq<seq<byte>>, a: seq<byte>, b: seq<byte>, c: seq<byte>, d: seq<byte>)
    ensures xs + [a] + [b] + [c] + [d] == xs + [a, b, c, d]
  {
  }

  lemma AppendFive(xs: seq<seq<byte>>, a: seq<byte>, b: seq<byte>, c: seq<byte>, d: seq<byte>, e: seq<byte>)
    ensures xs + [a] + [b] + [c] + [d] + [e] == xs + [a, b, c, d, e]
  {
  }

  // ----- the line structure -----

  /** Every field contributes exactly four lines. */
  lemma {:induction false} FieldLinesLength(boundary: string, fields: seq<(string, string)>)
    ensures |FieldLines(boundary, fields)| == 4 * |fields|
    decreases |fields|
  {
    if fields != [] {
      FieldLinesLength(boundary, fields[..|fields| - 1]);
    }
  }

  /** Lines 4i to 4i+3 are the part of the i-th field, in insertion order. */
  lemma {:induction false} FieldLinesAt(boundary: string, fields: seq<(string, string)>, i: nat)
    requires i < |fields|
    ensures |FieldLines(boundary, fields)| == 4 * |fields|
    ensures FieldLines(boundary, fields)[4 * i .. 4 * i + 4] == FieldPart(boundary, fields[i].0, fields[i].1)
    decreases |fields|
  {
    FieldLinesLength(boundary, fields);
    var init := fields[..|fields| - 1];
    FieldLinesLength(boundary, init);
    if i < |init| {
      FieldLinesAt(boundary, init, i);
      assert init[i] == fields[i];
    }
  }

  /**
   * The body has `4 * |fields|` field lines, five file lines when a path is
   * given and none otherwise, and one closing line.
   */
  lemma LinesCount(boundary: string, fields: seq<(string, string)>, filePath: Option<string>,
                   guessedType: Option<string>, fileData: seq<byte>)
    ensures |Lines(boundary, fields, filePath, guessedType, fileData)|
            == 4 * |fields| + (if HasFile(filePath) then 5 else 0) + 1
  {
    FieldLinesLength(boundary, fields);
  }

  /** The i-th field's four lines sit at positions 4i to 4i+3 of the whole body. */
  lemma FieldPartAt(boundary: string, fields: seq<(string, string)>, filePath: Option<string>,
                    guessedType: Option<string>, fileData: seq<byte>, i: nat)
    requires i < |fields|
    ensures 4 * i + 4 <= |Lines(boundary, fields, filePath, guessedType, fileData)|
    ensures Lines(boundary, fields, filePath, guessedType, fileData)[4 * i .. 4 * i + 4]
            == FieldPart(boundary, fields[i].0, fields[i].1)
  {
    FieldLinesAt(boundary, fields, i);
    var fl := FieldLines(boundary, fields);
    var all := Lines(boundary, fields, filePath, guessedType, fileData);
    assert all[..|fl|] == fl;
    assert all[4 * i .. 4 * i + 4] == fl[4 * i .. 4 * i + 4];
  }

  /**
   * With a path, the five lines after the fields are the file part: field
   * `resume`, the path's basename, the guessed type or the octet-stream
   * fallback, then the bytes.
   */
  lemma FilePartAfterFields(boundary: string, fields: seq<(string, string)>, filePath: Option<string>,
                            guessedType: Option<string>, fileData: seq<byte>)
    requires HasFile(filePath)
    ensures var all := Lines(boundary, fields, filePath, guessedType, fileData);
            var n := 4 * |fields|;
            n + 5 < |all| &&
            all[n .. n + 5] == FilePart(boundary, PosixPath.BaseName(filePath.value), ContentTypeOf(guessedType), fileData)
  {
    FieldLinesLength(boundary, fields);
  }

  /** The last line is always the close delimiter `--B--`, with or without fields. */
  lemma LastLineCloses(boundary: string, fields: seq<(string, string)>, filePath: Option<string>,
                       guessedType: Option<string>, fileData: seq<byte>)
    ensures var all := Lines(boundary, fields, filePath, guessedType, fileData);
            |all| > 0 && all[|all| - 1] == Enc("--" + boundary + "--")
  {
  }

  /** The body ends with the close delimiter; no CRLF follows it. */
  lemma BodyEndsWithClose(boundary: string, fields: seq<(string, string)>, filePath: Option<string>,
                          guessedType: Option<string>, fileData: seq<byte>)
    ensures var body := JoinCrlf(Lines(boundary, fields, filePath, guessedType, fileData));
            var close := Enc("--" + boundary + "--");
            |close| <= |body| && body[|body| - |close|..] == close
  {
    JoinEndsWithLast(Lines(boundary, fields, filePath, guessedType, fileData));
  }

  /** With no field and no file, the body is the close delimiter alone. */
  lemma EmptyFormIsCloseDelimiter(boundary: string, filePath: Option<string>,
                                  guessedType: Option<string>, fileData: seq<byte>)
    requires !HasFile(filePath)
    ensures JoinCrlf(Lines(boundary, [], filePath, guessedType, fileData)) == Enc("--" + boundary + "--")
  {
  }

  // ----- The script's parts framed as in section 5.1.1 of RFC 2046 -----

  /**
   * One part as the script writes it: its field name, an optional filename,
   * an optional Content-Type, and its octets.
   */
  datatype FormPart = FormPart(name: string, filename: Option<string>, contentType: Option<string>,
                               content: seq<byte>)

  /**
   * The part's header lines, built from the script's constants with the name
   * and filename pasted in as they are, with no quoting or escaping.
   */
  function HeaderFields(p: FormPart): seq<string> {
    [DISPOSITION + p.name + (if p.filename.Some? then FILENAME_PARAM + p.filename.value else "") + "\""]
    + (if p.contentType.Some? then [CONTENT_TYPE + p.contentType.value] else [])
  }

  /** Header fields, each terminated by CRLF. */
  function HeaderBlock(headers: seq<string>): seq<byte> {
    if headers == [] then [] else Enc(headers[0]) + CRLF + HeaderBlock(headers[1..])
  }

  /** `body-part := MIME-part-headers [CRLF *OCTET]`. */
  function BodyPart(p: FormPart): seq<byte> {
    HeaderBlock(HeaderFields(p)) + CRLF + p.content
  }

  /** `dash-boundary := "--" boundary`. */
  function DashBoundary(boundary: string): seq<byte> {
    Enc("--" + boundary)
  }

  /** `delimiter := CRLF dash-boundary`. */
  function Delimiter(boundary: string): seq<byte> {
    CRLF + DashBoundary(boundary)
  }

  /** `close-delimiter := delimiter "--"`. */
  function CloseDelimiter(boundary: string): seq<byte> {
    Delimiter(boundary) + Enc("--")
  }

  /** `dash-boundary CRLF body-part *encapsulation`, with `encapsulation := delimiter CRLF body-part`. */
  function Encapsulated(boundary: string, parts: seq<FormPart>): seq<byte>
    requires |parts| > 0
  {
    if |parts| == 1 then DashBoundary(boundary) + CRLF + BodyPart(parts[0])
    else Encapsulated(boundary, parts[..|parts| - 1]) + Delimiter(boundary) + CRLF + BodyPart(parts[|parts| - 1])
  }

  /** A multipart body of at least one part, without preamble, padding or epilogue. */
  function Rfc2046Body(boundary: string, parts: seq<FormPart>): seq<byte>
    requires |parts| > 0
  {
    Encapsulated(boundary, parts) + CloseDelimiter(boundary)
  }

  /** The parts `build_multipart` sends: the fields, then the resume if a path is given. */
  function FormParts(fields: seq<(string, string)>, filePath: Option<string>, guessedType: Option<string>,
                     fileData: seq<byte>): seq<FormPart> {
    FieldParts(fields)
    + (if HasFile(filePath)
       then [FormPart(FILE_FIELD, Some(PosixPath.BaseName(filePath.value)), Some(ContentTypeOf(guessedType)), fileData)]
       else [])
  }

  function FieldParts(fields: seq<(string, string)>): (r: seq<FormPart>)
    ensures |r| == |fields|
  {
    if fields == [] then []
    else
      var last := fields[|fields| - 1];
      FieldParts(fields[..|fields| - 1]) + [FormPart(last.0, None, None, Enc(last.1))]
  }

  /** A part's lines: the dash-boundary, its headers, an empty line, its octets. */
  function PartLines(boundary: string, p: FormPart): seq<seq<byte>> {
    [DashBoundary(boundary)] + EncodeAll(HeaderFields(p)) + [[], p.content]
  }

  function EncodeAll(headers: seq<string>): (r: seq<seq<byte>>)
    ensures |r| == |headers|
  {
    if headers == [] then [] else [Enc(headers[0])] + EncodeAll(headers[1..])
  }

  function AllPartLines(boundary: string, parts: seq<FormPart>): seq<seq<byte>> {
    if parts == [] then []
    else AllPartLines(boundary, parts[..|parts| - 1]) + PartLines(boundary, parts[|parts| - 1])
  }

  /** `a + c + (b + c + e)` regrouped as a header block followed by its content. */
  lemma ConcatRegroup3(a: seq<byte>, c: seq<byte>, b: seq<byte>, e: seq<byte>)
    ensures a + c + (b + c + e) == a + c + b + c + e
  {
  }

  lemma {:induction false} JoinHeaders(headers: seq<string>, content: seq<byte>)
    ensures JoinCrlf(EncodeAll(headers) + [[], content]) == HeaderBlock(headers) + CRLF + content
    decreases |headers|
  {
    if headers != [] {
      var rest := EncodeAll(headers[1..]) + [[], content];
      assert EncodeAll(headers) + [[], content] == [Enc(headers[0])] + rest;
      assert ([Enc(headers[0])] + rest)[1..] == rest;
      assert JoinCrlf([Enc(headers[0])] + rest) == Enc(headers[0]) + CRLF + JoinCrlf(rest);
      JoinHeaders(headers[1..], content);
      ConcatRegroup3(Enc(headers[0]), CRLF, HeaderBlock(headers[1..]), content);
    }
  }

  /** A part's joined lines are its dash-boundary, CRLF, and its body-part. */
  lemma JoinPart(boundary: string, p: FormPart)
    ensures JoinCrlf(PartLines(boundary, p)) == DashBoundary(boundary) + CRLF + BodyPart(p)
  {
    var rest := EncodeAll(HeaderFields(p)) + [[], p.content];
    assert PartLines(boundary, p) == [DashBoundary(boundary)] + rest;
    assert ([DashBoundary(boundary)] + rest)[1..] == rest;
    JoinHeaders(HeaderFields(p), p.content);
  }

  /** `a + c + (d + c + e)` regrouped as the encapsulation is written. */
  lemma ConcatRegroup(a: seq<byte>, c: seq<byte>, d: seq<byte>, e: seq<byte>)
    ensures a + c + (d + c + e) == a + (c + d) + c + e
  {
  }

  lemma {:induction false} JoinAllParts(boundary: string, parts: seq<FormPart>)
    requires |parts| > 0
    ensures JoinCrlf(AllPartLines(boundary, parts)) == Encapsulated(boundary, parts)
    decreases |parts|
  {
    var init := parts[..|parts| - 1];
    var last := parts[|parts| - 1];
    JoinPart(boundary, last);
    if |parts| == 1 {
      assert init == [];
      assert AllPartLines(boundary, parts) == PartLines(boundary, last);
    } else {
      var initLines, lastLines := AllPartLines(boundary, init), PartLines(boundary, last);
      assert AllPartLines(boundary, parts) == initLines + lastLines;
      assert Encapsulated(boundary, parts)
             == Encapsulated(boundary, init) + Delimiter(boundary) + CRLF + BodyPart(last);
      JoinAllParts(boundary, init);
      AllPartLinesNonEmpty(boundary, init);
      JoinAppend(initLines, lastLines);
      ConcatRegroup(Encapsulated(boundary, init), CRLF, DashBoundary(boundary), BodyPart(last));
    }
  }

  /** A field's four lines are the lines of a part with no filename and no type. */
  lemma FieldPartIsPart(boundary: string, key: string, value: string)
    ensures FieldPart(boundary, key, value) == PartLines(boundary, FormPart(key, None, None, Enc(value)))
  {
    var h := DISPOSITION + key + "\"";
    assert DISPOSITION + key + "" + "\"" == h;
    assert HeaderFields(FormPart(key, None, None, Enc(value))) == [h];
    assert EncodeAll([h]) == [Enc(h)];
  }

  /** The file's five lines are the lines of a part with a filename and a type. */
  lemma FilePartIsPart(boundary: string, filename: string, contentType: string, data: seq<byte>)
    ensures FilePart(boundary, filename, contentType, data)
            == PartLines(boundary, FormPart(FILE_FIELD, Some(filename), Some(contentType), data))
  {
    var h1 := DISPOSITION + FILE_FIELD + FILENAME_PARAM + filename + "\"";
    var h2 := CONTENT_TYPE + contentType;
    assert DISPOSITION + FILE_FIELD + (FILENAME_PARAM + filename) + "\"" == h1;
    assert HeaderFields(FormPart(FILE_FIELD, Some(filename), Some(contentType), data)) == [h1, h2];
    assert [h1, h2][1..] == [h2];
    assert EncodeAll([h1, h2]) == [Enc(h1), Enc(h2)];
  }

  /** The field lines are the lines of the field parts. */
  lemma {:induction false} FieldLinesAreParts(boundary: string, fields: seq<(string, string)>)
    ensures FieldLines(boundary, fields) == AllPartLines(boundary, FieldParts(fields))
    decreases |fields|
  {
    if fields != [] {
      var init := fields[..|fields| - 1];
      var last := fields[|fields| - 1];
      var parts := FieldParts(fields);
      assert parts[..|parts| - 1] == FieldParts(init);
      FieldLinesAreParts(boundary, init);
      FieldPartIsPart(boundary, last.0, last.1);
    }
  }

  lemma AllPartLinesSnoc(boundary: string, parts: seq<FormPart>, p: FormPart)
    ensures AllPartLines(boundary, parts + [p]) == AllPartLines(boundary, parts) + PartLines(boundary, p)
  {
    assert (parts + [p])[..|parts|] == parts;
  }

  /** The collected lines are the parts' lines followed by the close delimiter's line. */
  lemma LinesAreParts(boundary: string, fields: seq<(string, string)>, filePath: Option<string>,
                      guessedType: Option<string>, fileData: seq<byte>)
    ensures Lines(boundary, fields, filePath, guessedType, fileData)
            == AllPartLines(boundary, FormParts(fields, filePath, guessedType, fileData)) + [Enc("--" + boundary + "--")]
  {
    var fl := FieldLines(boundary, fields);
    var fp := FieldParts(fields);
    var close := [Enc("--" + boundary + "--")];
    FieldLinesAreParts(boundary, fields);
    if HasFile(filePath) {
      var filename := PosixPath.BaseName(filePath.value);
      var ct := ContentTypeOf(guessedType);
      var p := FormPart(FILE_FIELD, Some(filename), Some(ct), fileData);
      assert FormParts(fields, filePath, guessedType, fileData) == fp + [p];
      assert Lines(boundary, fields, filePath, guessedType, fileData) == fl + FilePart(boundary, filename, ct, fileData) + close;
      FilePartIsPart(boundary, filename, ct, fileData);
      AllPartLinesSnoc(boundary, fp, p);
    } else {
      assert FormParts(fields, filePath, guessedType, fileData) == fp + [];
      assert Lines(boundary, fields, filePath, guessedType, fileData) == fl + [] + close;
      assert fp + [] == fp && fl + [] == fl;
    }
  }

  /**
   * Whenever there is at least one part, the body is exactly the RFC 2046
   * multipart body of the form's parts under the boundary.
   */
  lemma BodyIsRfc2046(boundary: string, fields: seq<(string, string)>, filePath: Option<string>,
                      guessedType: Option<string>, fileData: seq<byte>)
    requires |fields| > 0 || HasFile(filePath)
    ensures |FormParts(fields, filePath, guessedType, fileData)| > 0
    ensures JoinCrlf(Lines(boundary, fields, filePath, guessedType, fileData))
            == Rfc2046Body(boundary, FormParts(fields, filePath, guessedType, fileData))
  {
    var parts := FormParts(fields, filePath, guessedType, fileData);
    var partLines := AllPartLines(boundary, parts);
    var close := Enc("--" + boundary + "--");
    LinesAreParts(boundary, fields, filePath, guessedType, fileData);
    assert |parts| > 0;
    AllPartLinesNonEmpty(boundary, parts);
    JoinAllParts(boundary, parts);
    JoinAppend(partLines, [close]);
    CloseLine(boundary);
  }

  lemma AllPartLinesNonEmpty(boundary: string, parts: seq<FormPart>)
    requires |parts| > 0
    ensures |AllPartLines(boundary, parts)| > 0
  {
    assert |PartLines(boundary, parts[|parts| - 1])| > 0;
  }

  /** CRLF followed by the closing line is the close-delimiter. */
  lemma CloseLine(boundary: string)
    ensures CRLF + JoinCrlf([Enc("--" + boundary + "--")]) == CloseDelimiter(boundary)
  {
    EncAppend("--" + boundary, "--");
    assert ("--" + boundary) + "--" == "--" + boundary + "--";
  }

  /**
   * The body an empty form produces is no RFC 2046 body: every such body ends
   * with the close-delimiter, which is two bytes (its leading CRLF) longer
   * than the lone `--B--` line, so no choice of parts yields it.
   */
  lemma EmptyFormIsNoMultipartBody(boundary: string, filePath: Option<string>, guessedType: Option<string>,
                                   fileData: seq<byte>, parts: seq<FormPart>)
    requires !HasFile(filePath) && |parts| > 0
    ensures JoinCrlf(Lines(boundary, [], filePath, guessedType, fileData)) != Rfc2046Body(boundary, parts)
  {
    EmptyFormIsCloseDelimiter(boundary, filePath, guessedType, fileData);
    CloseLine(boundary);
    assert |Rfc2046Body(boundary, parts)| >= |CloseDelimiter(boundary)| == |CRLF| + |Enc("--" + boundary + "--")|;
  }
}
