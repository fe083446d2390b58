/**
 * The client component as the code has it: state slots updated in place by event handlers.
 * Each handler is proved to move the state exactly as the matching `StudioSpec` transition.
 */
module Studio {
  import opened Wrappers
  import opened Text
  import ObjectUrls
  import opened StudioSpec

  class App {
    var selectedFile: Option<File>
    var previewUrl: Url
    var prompt: string
    var editedImage: string
    var statusMessage: string
    var isLoading: bool
    var isDragging: bool
    /** The browser's object-URL store, which the preview handles come from. */
    var urls: ObjectUrls.Registry
    var mounted: bool

    /** The component's state as a value. */
    ghost function State(): Snapshot
      reads this
    {
      Snapshot(selectedFile, previewUrl, prompt, editedImage, statusMessage,
               isLoading, isDragging, urls, mounted)
    }

    ghost predicate Valid()
      reads this
    {
      StudioSpec.Valid(State())
    }

    /** The first render. */
    constructor ()
      ensures Valid() && State() == Initial()
    {
      selectedFile := None;
      previewUrl := NoUrl;
      prompt := "";
      editedImage := "";
      statusMessage := WelcomeStatus;
      isLoading := false;
      isDragging := false;
      urls := ObjectUrls.Empty();
      mounted := true;
    }

    /** Runs the preview effect's cleanup for a superseded `previewUrl`. */
    method RevokePreview(previous: Url)
      requires ObjectUrls.Valid(urls) && Handles(previous) <= urls.live
      modifies this`urls
      ensures urls == ReleasePreview(old(urls), previous)
    {
      if previous.Blob? {
        urls := ObjectUrls.Revoke(urls, previous.id);
      }
    }

    /** `handleFileChange`, with the effect cleanup that follows a new preview. */
    method HandleFileChange(file: Option<File>)
      requires Valid() && mounted
      modifies this
      ensures Valid() && State() == OnFileChange(old(State()), file)
    {
      if file.None? {
        return;
      }
      if !StartsWith(file.value.mime, "image/") {
        statusMessage := ChooseImageStatus;
        return;
      }
      var previous := previewUrl;
      var (created, nextPreview) := ObjectUrls.Create(urls);
      urls := created;
      selectedFile := file;
      previewUrl := Blob(nextPreview);
      editedImage := "";
      statusMessage := LovelyStatus;
      RevokePreview(previous);
    }

    /** `handleDrop`: clears the dragging flag and forwards the first dropped file. */
    method HandleDrop(files: seq<File>)
      requires Valid() && mounted
      modifies this
      ensures Valid() && State() == OnDrop(old(State()), files)
    {
      isDragging := false;
      var dropped := FirstFile(files);
      HandleFileChange(dropped);
    }

    /** `handleDragOver`. */
    method HandleDragOver()
      requires Valid()
      modifies this`isDragging
      ensures Valid() && State() == OnDragOver(old(State()))
    {
      isDragging := true;
    }

    /** `handleDragLeave`. */
    method HandleDragLeave()
      requires Valid()
      modifies this`isDragging
      ensures Valid() && State() == OnDragLeave(old(State()))
    {
      isDragging := false;
    }

    /** The prompt field's `onChange`. */
    method SetPrompt(text: string)
      requires Valid()
      modifies this`prompt
      ensures Valid() && State() == OnPromptInput(old(State()), text)
    {
      prompt := text;
    }

    /** `onSubmit` up to the `fetch`: validation, the loading flag and the request to send. */
    method SubmitStart() returns (request: Option<Request>)
      requires Valid() && mounted && !isLoading
      modifies this
      ensures Valid() && (State(), request) == OnSubmitStart(old(State()))
    {
      if selectedFile.None? {
        statusMessage := AddImageStatus;
        return None;
      }
      if Blank(prompt, JsWhitespace) {
        statusMessage := PromptHintStatus;
        return None;
      }
      isLoading := true;
      statusMessage := WorkingStatus;
      request := Some(Request(Trim(prompt, JsWhitespace), selectedFile.value));
    }

    /** `onSubmit` after the `await`: the `try`/`catch`/`finally` that settles the request. */
    method SubmitComplete(outcome: Outcome)
      requires Valid() && isLoading
      modifies this
      ensures Valid() && State() == OnSubmitComplete(old(State()), outcome)
    {
      if !mounted {
        return;
      }
      match outcome {
        case ResponseOk(image) =>
          editedImage := image;
          statusMessage := SuccessStatus;
        case ResponseNotOk(detail) =>
          statusMessage := CaughtMessage(RejectionMessage(detail));
        case Thrown(message) =>
          statusMessage := CaughtMessage(message);
      }
      isLoading := false;
    }

    /** Teardown: the cleanup registered for the current preview runs. */
    method Unmount()
      requires Valid() && mounted
      modifies this
      ensures Valid() && State() == OnUnmount(old(State()))
    {
      mounted := false;
      RevokePreview(previewUrl);
    }
  }
}
