/**
 * The `/api/edit-image` endpoint of the alternative server: the blank-prompt check, the
 * stored upload's name built from the client's file name, the editor call and the URL of the
 * stored result. The image SDK and the random hex strings are parameters.
 */
module AltServer {
  import opened Wrappers
  import opened Text
  import opened Paths
  import opened ServerTypes

  /** The `image` form field: the client's file name and the bytes. */
  datatype Upload = Upload(filename: Option<string>, content: seq<bv8>)

  /** The JSON body of a successful answer. */
  datatype Reply = Reply(editedImageUrl: string)

  const BlankPromptDetail := "Please share a quick idea for the edit."
  const EditorFailureDetail := "The image editor had trouble finishing this request."
  const DefaultFilename := "upload.png"
  const EditedUrlPrefix := "/edited_image/"

  /** `image.filename or "upload.png"`: an absent or empty name falls back to the default. */
  function ClientFilename(filename: Option<string>): (name: string)
    ensures name != ""
    ensures filename.Some? && filename.value != "" ==> name == filename.value
    ensures filename.None? || filename.value == "" ==> name == DefaultFilename
  {
    match filename
    case Some(f) => if f != "" then f else DefaultFilename
    case None => DefaultFilename
  }

  /**
   * The stored upload's name: `upload_`, 32 hex digits, `_`, then the basename of the client's
   * file name. Whatever directories the client's name holds, the result names an entry
   * directly inside the upload folder.
   */
  function SafeFilename(hex: string, filename: Option<string>): (name: string)
    requires IsLowerHex(hex, 32)
    ensures SafeName(name)
  {
    HexHasNoSeparator(hex, 32);
    var base := Basename(ClientFilename(filename));
    JoinedNameIsSafe("upload_", hex, "_" + base);
    "upload_" + hex + ("_" + base)
  }

  /** The stored upload's name splits back into its prefix, the hex string and the client's basename. */
  lemma SafeFilenameParts(hex: string, filename: Option<string>)
    requires IsLowerHex(hex, 32)
    ensures var name := SafeFilename(hex, filename);
      |name| >= 40 && name[..7] == "upload_" && name[7..39] == hex && name[39] == '_'
      && name[40..] == Basename(ClientFilename(filename)) && '/' !in name[40..]
  {
    var base := Basename(ClientFilename(filename));
    var tail := "_" + base;
    var name := SafeFilename(hex, filename);
    assert name == "upload_" + hex + tail;
    assert name[..7] == "upload_";
    assert name[7..39] == hex;
    assert name[39..] == tail;
    assert tail[1..] == base;
    assert name[40..] == tail[1..];
  }

  /** The stored result's name: `edited_`, 32 hex digits and `.png`. */
  function EditedFilename(hex: string): (name: string)
    requires IsLowerHex(hex, 32)
    ensures SafeName(name)
  {
    HexHasNoSeparator(hex, 32);
    JoinedNameIsSafe("edited_", hex, ".png");
    "edited_" + hex + ".png"
  }

  /** The stored result's name splits back into its prefix, the hex string and `.png`. */
  lemma EditedFilenameParts(hex: string)
    requires IsLowerHex(hex, 32)
    ensures var name := EditedFilename(hex);
      |name| == 43 && name[..7] == "edited_" && name[7..39] == hex && name[39..] == ".png"
  {
    var name := EditedFilename(hex);
    assert name == "edited_" + hex + ".png";
    assert name[..7] == "edited_";
    assert name[7..39] == hex;
  }

  /**
   * `edit_image_based_on_prompt`: the SDK edits the stored upload's bytes with the prompt; the
   * decoded result is written to the edited folder and its name returned. No result means the
   * call raised.
   */
  function EditImageBasedOnPrompt(original: seq<bv8>, prompt: string, hex: string,
                                  sdk: (seq<bv8>, string) -> Option<seq<bv8>>)
    : (r: Option<(string, FileWrite)>)
    requires IsLowerHex(hex, 32)
    ensures r.Some? <==> sdk(original, prompt).Some?
    ensures r.Some? ==>
      && r.value.0 == EditedFilename(hex)
      && r.value.1 == FileWrite(EditedFolder, r.value.0, sdk(original, prompt).value)
  {
    match sdk(original, prompt)
    case None => None
    case Some(edited) =>
      var name := EditedFilename(hex);
      Some((name, FileWrite(EditedFolder, name, edited)))
  }

  /** The URL under which a stored result is served by the `/edited_image` static mount. */
  function EditedImageUrl(name: string): (url: string)
    ensures StartsWith(url, EditedUrlPrefix) && url[|EditedUrlPrefix|..] == name
  {
    EditedUrlPrefix + name
  }

  /**
   * `edit_image` once the prompt has passed: the upload is stored, the editor called with the
   * prompt as received; its failure is a 500 that leaves the upload behind; its success
   * answers with the URL under which the stored result is served.
   */
  function StoreAndEdit(prompt: string, image: Upload, uploadHex: string, editedHex: string,
                        sdk: (seq<bv8>, string) -> Option<seq<bv8>>)
    : (h: Handled<Reply>)
    requires IsLowerHex(uploadHex, 32) && IsLowerHex(editedHex, 32)
    ensures |h.writes| >= 1
      && h.writes[0] == FileWrite(UploadedFolder, SafeFilename(uploadHex, image.filename), image.content)
    ensures forall w <- h.writes :: SafeName(w.name)
    ensures h.result.Ok? <==> sdk(image.content, prompt).Some?
    ensures h.result.Err? ==> h.result.error == HttpError(500, EditorFailureDetail) && |h.writes| == 1
    ensures h.result.Ok? ==>
      var url := h.result.value.editedImageUrl;
      && StartsWith(url, EditedUrlPrefix)
      && |h.writes| == 2
      && h.writes[1] == FileWrite(EditedFolder, url[|EditedUrlPrefix|..], sdk(image.content, prompt).value)
      && url[|EditedUrlPrefix|..] == EditedFilename(editedHex)
  {
    var uploaded := FileWrite(UploadedFolder, SafeFilename(uploadHex, image.filename), image.content);
    var edited := EditImageBasedOnPrompt(image.content, prompt, editedHex, sdk);
    if edited.None? then
      Handled(Err(HttpError(500, EditorFailureDetail)), [uploaded])
    else
      Handled(Ok(Reply(EditedImageUrl(edited.value.0))), [uploaded, edited.value.1])
  }

  /**
   * `edit_image`: a blank prompt is a 400 before anything is read or written; otherwise
   * `StoreAndEdit` runs with the prompt as received, untrimmed.
   */
  function EditImage(prompt: string, image: Upload, uploadHex: string, editedHex: string,
                     sdk: (seq<bv8>, string) -> Option<seq<bv8>>)
    : (h: Handled<Reply>)
    requires IsLowerHex(uploadHex, 32) && IsLowerHex(editedHex, 32)
    ensures Blank(prompt, PyWhitespace) ==> h == Handled(Err(HttpError(400, BlankPromptDetail)), [])
    ensures !Blank(prompt, PyWhitespace) ==> h == StoreAndEdit(prompt, image, uploadHex, editedHex, sdk)
    // every file written lands directly inside its folder
    ensures forall w <- h.writes :: SafeName(w.name)
    // the editor sees the raw prompt, not the stripped one
    ensures h.result.Ok? <==> !Blank(prompt, PyWhitespace) && sdk(image.content, prompt).Some?
  {
    if Blank(prompt, PyWhitespace) then
      Handled(Err(HttpError(400, BlankPromptDetail)), [])
    else
      StoreAndEdit(prompt, image, uploadHex, editedHex, sdk)
  }
}
