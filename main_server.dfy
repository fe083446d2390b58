/**
 * The `/api/edit` endpoint of the main server: two validators, a fixed order of checks with
 * early exits, and the names and `data:` URL it builds. The image editor, base64 encoding
 * and the random tokens are parameters.
 */
module MainServer {
  import opened Wrappers
  import opened Text
  import opened Paths
  import opened ServerTypes

  /** The `image` form field: the client's file name, its declared content type and its bytes. */
  datatype Upload = Upload(filename: Option<string>, contentType: Option<string>, content: seq<bv8>)

  /** The JSON body of a successful answer. */
  datatype Reply = Reply(image: string, filename: string)

  const BlankPromptDetail := "Please share a short instruction for your edit."
  const MissingImageDetail := "Please add an image to edit."
  const NotAnImageDetail := "Please upload a valid image file."
  const UnreadableDetail := "We couldn't read that image. Try again with a different file."
  const EditorFailureDetail := "We had trouble editing your image. Please try again."
  const DataUrlPrefix := "data:image/png;base64,"

  /** `validate_prompt`: the prompt with Python whitespace stripped, or a 400 when nothing is left. */
  function ValidatePrompt(prompt: string): (r: Result<string, HttpError>)
    ensures r.Err? <==> AllWhitespace(prompt, PyWhitespace)
    ensures r.Err? ==> r.error == HttpError(400, BlankPromptDetail)
    ensures r.Ok? ==> r.value != "" && Trimmed(r.value, PyWhitespace) && r.value == Trim(prompt, PyWhitespace)
  {
    BlankIff(prompt, PyWhitespace);
    var cleaned := Trim(prompt, PyWhitespace);
    if cleaned == "" then Err(HttpError(400, BlankPromptDetail)) else Ok(cleaned)
  }

  /** A prompt that passed validation passes again unchanged. */
  lemma ValidatePromptIdempotent(prompt: string)
    requires ValidatePrompt(prompt).Ok?
    ensures ValidatePrompt(ValidatePrompt(prompt).value) == ValidatePrompt(prompt)
  {
    TrimIdempotent(prompt, PyWhitespace);
  }

  /**
   * `validate_image_file`: a missing image or file name is a 400; so is a content type that is
   * present, not empty and does not start with "image". An absent or empty type passes.
   */
  function ValidateImageFile(image: Option<Upload>): (r: Result<Upload, HttpError>)
    ensures r.Ok? ==> image == Some(r.value)
    ensures image.None? || image.value.filename.None? || image.value.filename.value == "" ==>
      r == Err(HttpError(400, MissingImageDetail))
    ensures image.Some? && image.value.filename.Some? && image.value.filename.value != "" ==>
      (r.Err? <==> image.value.contentType.Some? && image.value.contentType.value != ""
                   && !StartsWith(image.value.contentType.value, "image"))
    ensures image.Some? && image.value.filename.Some? && image.value.filename.value != "" && r.Err? ==>
      r.error == HttpError(400, NotAnImageDetail)
    ensures r.Err? ==> r.error.status == 400
  {
    match image
    case None => Err(HttpError(400, MissingImageDetail))
    case Some(upload) =>
      if upload.filename.None? || upload.filename.value == "" then
        Err(HttpError(400, MissingImageDetail))
      else if upload.contentType.Some? && upload.contentType.value != ""
              && !StartsWith(upload.contentType.value, "image") then
        Err(HttpError(400, NotAnImageDetail))
      else
        Ok(upload)
  }

  /**
   * The stored upload's name: `upload_`, the 16-digit token, then the client name's suffix,
   * or `.png` when it has none. It always names a file directly inside the upload folder.
   */
  function UploadName(token: string, filename: string): (name: string)
    requires IsLowerHex(token, 16)
    ensures SafeName(name)
  {
    HexHasNoSeparator(token, 16);
    var suffix := Suffix(filename);
    var ext := if suffix != "" then suffix else ".png";
    JoinedNameIsSafe("upload_", token, ext);
    "upload_" + token + ext
  }

  /** The stored upload's name splits back into its prefix, the token and an extension. */
  lemma UploadNameParts(token: string, filename: string)
    requires IsLowerHex(token, 16)
    ensures var name := UploadName(token, filename);
      |name| >= 25 && name[..7] == "upload_" && name[7..23] == token && name[23] == '.'
      && name[23..] == (if Suffix(filename) != "" then Suffix(filename) else ".png")
  {
    var suffix := Suffix(filename);
    var ext := if suffix != "" then suffix else ".png";
    assert UploadName(token, filename) == "upload_" + token + ext;
    UploadNameSplits(token, ext);
  }

  /** `upload_`, a 16-digit token and an extension of two or more characters split back apart. */
  lemma UploadNameSplits(token: string, ext: string)
    requires |token| == 16 && |ext| >= 2 && ext[0] == '.'
    ensures var name := "upload_" + token + ext;
      |name| >= 25 && name[..7] == "upload_" && name[7..23] == token && name[23] == '.'
      && name[23..] == ext
  {
    var head := "upload_" + token;
    assert (head + ext)[..23] == head;
    assert (head + ext)[23..] == ext;
    assert head[..7] == "upload_" && head[7..23] == token;
  }

  /** The stored result's name: `edited_`, the 16-digit token and `.png`. */
  function EditedName(token: string): (name: string)
    requires IsLowerHex(token, 16)
    ensures SafeName(name)
  {
    HexHasNoSeparator(token, 16);
    JoinedNameIsSafe("edited_", token, ".png");
    "edited_" + token + ".png"
  }

  /** The stored result's name splits back into its prefix, the token and `.png`. */
  lemma EditedNameParts(token: string)
    requires IsLowerHex(token, 16)
    ensures var name := EditedName(token);
      |name| == 27 && name[..7] == "edited_" && name[7..23] == token && name[23..] == ".png"
  {
    var name := EditedName(token);
    assert name == "edited_" + token + ".png";
    assert name[..7] == "edited_";
    assert name[7..23] == token;
  }

  /** The `data:` URL (RFC 2397) for a base64-encoded PNG. */
  function DataUrl(payload: string): (u: string)
    ensures StartsWith(u, "data:") && EndsWith(u, payload)
  {
    DataUrlPrefix + payload
  }

  /** The parts of a `data:` URL: its media type, whether it is base64-encoded, and its data. */
  datatype DataUrlParts = DataUrlParts(mediaType: string, base64: bool, data: string)

  /**
   * Reads a `data:` URL as RFC 2397 lays it out: `data:`, the media type, an optional
   * `;base64`, a comma, then the data.
   */
  function ParseDataUrl(u: string): (r: Option<DataUrlParts>)
    ensures r.Some? ==> StartsWith(u, "data:") && EndsWith(u, r.value.data)
  {
    if !StartsWith(u, "data:") then None
    else
      var rest := u[5..];
      var comma := IndexOf(rest, ',');
      if comma < 0 then None
      else
        var header := rest[..comma];
        var data := rest[comma + 1..];
        assert u[|u| - |data|..] == data;
        if EndsWith(header, ";base64") then
          Some(DataUrlParts(header[..|header| - 7], true, data))
        else
          Some(DataUrlParts(header, false, data))
  }

  /** The answer's `data:` URL reads back as a base64 PNG carrying exactly the encoded image. */
  lemma DataUrlRoundTrip(payload: string)
    ensures ParseDataUrl(DataUrl(payload)) == Some(DataUrlParts("image/png", true, payload))
  {
    var u := DataUrl(payload);
    assert u == DataUrlPrefix + payload;
    var rest := u[5..];
    assert rest == "image/png;base64," + payload;
    assert rest[16] == ',';
    assert forall j :: 0 <= j < 16 ==> rest[j] != ',';
    assert IndexOf(rest, ',') == 16;
    var header := rest[..16];
    assert header == "image/png;base64";
    assert header[9..] == ";base64" && header[..9] == "image/png";
    assert rest[17..] == payload;
  }

  /**
   * The part of `edit_image` after validation: the upload is written, the editor called with
   * the stripped prompt; its failure is a 500 that leaves the upload behind, its success writes
   * the result and answers with a `data:` URL and the result's name.
   */
  function StoreAndEdit(upload: Upload, cleaned: string, uploadToken: string, editedToken: string,
                        editor: (seq<bv8>, string) -> Option<seq<bv8>>, base64: seq<bv8> -> string)
    : (h: Handled<Reply>)
    requires IsLowerHex(uploadToken, 16) && IsLowerHex(editedToken, 16)
    requires upload.filename.Some? && upload.filename.value != ""
    ensures forall w <- h.writes :: SafeName(w.name)
    ensures |h.writes| >= 1
      && h.writes[0] == FileWrite(UploadedFolder, UploadName(uploadToken, upload.filename.value), upload.content)
    ensures h.result.Ok? <==> editor(upload.content, cleaned).Some?
    ensures h.result.Err? ==> h.result == Err(HttpError(500, EditorFailureDetail)) && |h.writes| == 1
    ensures h.result.Ok? ==>
      var edited := editor(upload.content, cleaned).value;
      && |h.writes| == 2 && h.writes[1] == FileWrite(EditedFolder, h.result.value.filename, edited)
      && h.result.value.filename == EditedName(editedToken)
      && ParseDataUrl(h.result.value.image) == Some(DataUrlParts("image/png", true, base64(edited)))
  {
    var uploaded := FileWrite(UploadedFolder, UploadName(uploadToken, upload.filename.value), upload.content);
    match editor(upload.content, cleaned)
    case None => Handled(Err(HttpError(500, EditorFailureDetail)), [uploaded])
    case Some(edited) =>
      var editedName := EditedName(editedToken);
      DataUrlRoundTrip(base64(edited));
      Handled(Ok(Reply(DataUrl(base64(edited)), editedName)),
              [uploaded, FileWrite(EditedFolder, editedName, edited)])
  }

  /**
   * `edit_image`. The checks run in order, each stopping the request: the image (400), the
   * prompt (400), empty bytes (400); then `StoreAndEdit` runs with the stripped prompt.
   */
  function EditImage(prompt: string, image: Option<Upload>, uploadToken: string, editedToken: string,
                     editor: (seq<bv8>, string) -> Option<seq<bv8>>, base64: seq<bv8> -> string)
    : (h: Handled<Reply>)
    requires IsLowerHex(uploadToken, 16) && IsLowerHex(editedToken, 16)
    // the image is checked before the prompt: its error wins
    ensures ValidateImageFile(image).Err? ==> h == Handled(Err(ValidateImageFile(image).error), [])
    ensures ValidateImageFile(image).Ok? && ValidatePrompt(prompt).Err? ==>
      h == Handled(Err(ValidatePrompt(prompt).error), [])
    ensures ValidateImageFile(image).Ok? && ValidatePrompt(prompt).Ok? && image.value.content == [] ==>
      h == Handled(Err(HttpError(400, UnreadableDetail)), [])
    // a 400 writes nothing; a 500 leaves only the upload behind
    ensures h.result.Err? ==>
      (h.result.error.status == 400 && h.writes == [])
      || (h.result.error == HttpError(500, EditorFailureDetail) && |h.writes| == 1
          && h.writes[0].folder == UploadedFolder)
    // every file written lands directly inside its folder
    ensures forall w <- h.writes :: SafeName(w.name)
    // success exactly when the checks pass and the editor accepts the stripped prompt
    ensures h.result.Ok? <==>
      ValidateImageFile(image).Ok? && !AllWhitespace(prompt, PyWhitespace) && image.value.content != []
      && editor(image.value.content, Trim(prompt, PyWhitespace)).Some?
    // once every check passes, the rest is `StoreAndEdit` with the stripped prompt, 500 included
    ensures ValidateImageFile(image).Ok? && ValidatePrompt(prompt).Ok? && image.value.content != [] ==>
      h == StoreAndEdit(image.value, ValidatePrompt(prompt).value, uploadToken, editedToken, editor, base64)
  {
    match ValidateImageFile(image)
    case Err(e) => Handled(Err(e), [])
    case Ok(upload) =>
      match ValidatePrompt(prompt)
      case Err(e) => Handled(Err(e), [])
      case Ok(cleaned) =>
        if upload.content == [] then
          Handled(Err(HttpError(400, UnreadableDetail)), [])
        else
          StoreAndEdit(upload, cleaned, uploadToken, editedToken, editor, base64)
  }
}
