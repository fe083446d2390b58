/**
 * The client's edit workflow as values: a snapshot of the component's state and one
 * transition per event handler. The `Studio.App` class is proved against these functions.
 */
module StudioSpec {
  import opened Wrappers
  import opened Text
  import ObjectUrls

  /** A file picked or dropped by the user: its name, its declared MIME type and its bytes. */
  datatype File = File(name: string, mime: string, content: seq<bv8>)

  /** `previewUrl`: the empty string, or an object URL identified by its handle. */
  datatype Url = NoUrl | Blob(id: nat)

  /** The multipart request sent to the server: the `prompt` and `image` form fields. */
  datatype Request = Request(prompt: string, image: File)

  /** How the awaited request ended: a 2xx response, another response, or an exception. */
  datatype Outcome =
    | ResponseOk(image: string)
    | ResponseNotOk(detail: Option<string>)
    | Thrown(message: string)

  /** The component's state (its seven `useState` slots), the object-URL store and whether it is mounted. */
  datatype Snapshot = Snapshot(
    selectedFile: Option<File>,
    previewUrl: Url,
    prompt: string,
    editedImage: string,
    statusMessage: string,
    isLoading: bool,
    isDragging: bool,
    urls: ObjectUrls.Registry,
    mounted: bool)

  const WelcomeStatus := "Drop in a photo and describe what you want to create."
  const ChooseImageStatus := "Please choose an image file."
  const LovelyStatus := "Lovely choice! Add a prompt and we will craft it."
  const AddImageStatus := "Please add an image to edit."
  const PromptHintStatus := "A short prompt helps us understand your vision."
  const WorkingStatus := "Smoothing pixels and dreaming up your edit..."
  const GenericFailureStatus := "Something went wrong. Please try again."
  const SuccessStatus := "Here is your refreshed image \U{2728}"
  const UnableStatus := "Unable to edit that image right now."

  /** The handles a URL holds: its own, or none for the empty string. */
  function Handles(u: Url): set<nat>
  {
    if u.Blob? then {u.id} else {}
  }

  /**
   * The component invariant: a file is selected exactly when there is a preview, and the only
   * live object URL is the current preview while mounted, none after teardown.
   */
  ghost predicate Valid(s: Snapshot)
  {
    ObjectUrls.Valid(s.urls)
    && (s.selectedFile.Some? <==> s.previewUrl.Blob?)
    && (s.previewUrl.Blob? ==> s.previewUrl.id < s.urls.next)
    && s.urls.live == (if s.mounted then Handles(s.previewUrl) else {})
  }

  /** The first file of a `FileList`, as `files?.[0]` reads it. */
  function FirstFile(files: seq<File>): (f: Option<File>)
    ensures f.Some? <==> |files| > 0
    ensures f.Some? ==> f.value == files[0]
  {
    if |files| > 0 then Some(files[0]) else None
  }

  /** The state when the component first renders. */
  function Initial(): (s: Snapshot)
    ensures Valid(s) && s.mounted && s.urls.live == {}
    ensures s.selectedFile.None? && s.prompt == "" && s.editedImage == "" && !s.isLoading
  {
    Snapshot(None, NoUrl, "", "", WelcomeStatus, false, false, ObjectUrls.Empty(), true)
  }

  /**
   * Releases the preview a state change has superseded: the cleanup the preview effect
   * registered for the previous `previewUrl` runs once the new value is committed.
   */
  function ReleasePreview(urls: ObjectUrls.Registry, previous: Url): (r: ObjectUrls.Registry)
    requires ObjectUrls.Valid(urls) && Handles(previous) <= urls.live
    ensures ObjectUrls.Valid(r) && r.next == urls.next
    ensures r.live == urls.live - Handles(previous)
    ensures r.revocations == urls.revocations + (if previous.Blob? then [previous.id] else [])
  {
    if previous.Blob? then ObjectUrls.Revoke(urls, previous.id) else urls
  }

  /** `handleFileChange`, followed by the preview effect's cleanup when the preview changes. */
  function OnFileChange(s: Snapshot, file: Option<File>): (t: Snapshot)
    requires Valid(s) && s.mounted
    ensures Valid(t) && t.mounted
    // an absent file changes nothing, not even the status message
    ensures file.None? ==> t == s
    // a non-image file changes the status message and nothing else
    ensures file.Some? && !StartsWith(file.value.mime, "image/") ==>
      t == s.(statusMessage := ChooseImageStatus)
    // an image becomes the selection with a new preview; the old preview is released
    ensures file.Some? && StartsWith(file.value.mime, "image/") ==>
      && t.selectedFile == file
      && t.previewUrl.Blob? && t.previewUrl.id !in s.urls.live && t.previewUrl.id !in s.urls.revocations
      && t.editedImage == "" && t.statusMessage == LovelyStatus
      && t.urls.live == {t.previewUrl.id}
      && t.urls.revocations == s.urls.revocations + (if s.previewUrl.Blob? then [s.previewUrl.id] else [])
      && t.prompt == s.prompt && t.isLoading == s.isLoading && t.isDragging == s.isDragging
  {
    match file
    case None => s
    case Some(f) =>
      if !StartsWith(f.mime, "image/") then
        s.(statusMessage := ChooseImageStatus)
      else
        var (created, h) := ObjectUrls.Create(s.urls);
        s.(selectedFile := file, previewUrl := Blob(h), editedImage := "",
           statusMessage := LovelyStatus, urls := ReleasePreview(created, s.previewUrl))
  }

  /** `handleDrop`: the dragging flag is cleared whatever was dropped; only the first file is used. */
  function OnDrop(s: Snapshot, files: seq<File>): (t: Snapshot)
    requires Valid(s) && s.mounted
    ensures Valid(t) && t.mounted && !t.isDragging
    ensures t == OnFileChange(s.(isDragging := false), FirstFile(files))
    ensures |files| == 0 ==> t == s.(isDragging := false)
  {
    OnFileChange(s.(isDragging := false), FirstFile(files))
  }

  /** `handleDragOver`: only the dragging flag changes. */
  function OnDragOver(s: Snapshot): (t: Snapshot)
    requires Valid(s)
    ensures Valid(t) && t == s.(isDragging := true)
  {
    s.(isDragging := true)
  }

  /** `handleDragLeave`: only the dragging flag changes. */
  function OnDragLeave(s: Snapshot): (t: Snapshot)
    requires Valid(s)
    ensures Valid(t) && t == s.(isDragging := false)
  {
    s.(isDragging := false)
  }

  /** The prompt field's `onChange`: the text is stored verbatim. */
  function OnPromptInput(s: Snapshot, text: string): (t: Snapshot)
    requires Valid(s)
    ensures Valid(t) && t == s.(prompt := text)
  {
    s.(prompt := text)
  }

  /**
   * The synchronous part of `onSubmit`, up to the `fetch` call: the file check comes first,
   * then the prompt check; only when both pass is a request built and the loading flag set.
   * The submit button is disabled while loading, so the handler never runs then.
   */
  function OnSubmitStart(s: Snapshot): (res: (Snapshot, Option<Request>))
    requires Valid(s) && s.mounted && !s.isLoading
    ensures Valid(res.0) && res.0.mounted
    // a request is sent exactly when a file is selected and the prompt is not all whitespace
    ensures res.1.Some? <==> s.selectedFile.Some? && !AllWhitespace(s.prompt, JsWhitespace)
    // without a request only the status message changes, and the missing file is reported first
    ensures res.1.None? ==> res.0 == s.(statusMessage := res.0.statusMessage)
    ensures s.selectedFile.None? ==> res.0.statusMessage == AddImageStatus
    ensures s.selectedFile.Some? && res.1.None? ==> res.0.statusMessage == PromptHintStatus
    // a request carries the selected file and the prompt with its edges trimmed
    ensures res.1.Some? ==>
      && res.0 == s.(isLoading := true, statusMessage := WorkingStatus)
      && res.1.value.image == s.selectedFile.value
      && res.1.value.prompt != [] && Trimmed(res.1.value.prompt, JsWhitespace)
      && res.1.value.prompt == Trim(s.prompt, JsWhitespace)
  {
    BlankIff(s.prompt, JsWhitespace);
    if s.selectedFile.None? then
      (s.(statusMessage := AddImageStatus), None)
    else if Blank(s.prompt, JsWhitespace) then
      (s.(statusMessage := PromptHintStatus), None)
    else
      (s.(isLoading := true, statusMessage := WorkingStatus),
       Some(Request(Trim(s.prompt, JsWhitespace), s.selectedFile.value)))
  }

  /** The message of the `Error` thrown for a non-2xx response: its `detail` if truthy, else a generic one. */
  function RejectionMessage(detail: Option<string>): (m: string)
    ensures m != ""
    ensures detail.Some? && detail.value != "" ==> m == detail.value
    ensures detail.None? || detail.value == "" ==> m == GenericFailureStatus
  {
    match detail
    case Some(d) => if d != "" then d else GenericFailureStatus
    case None => GenericFailureStatus
  }

  /** The `catch` block: the error's message, or a fallback when that message is empty. */
  function CaughtMessage(message: string): (m: string)
    ensures m != ""
    ensures message != "" ==> m == message
    ensures message == "" ==> m == UnableStatus
  {
    if message != "" then message else UnableStatus
  }

  /** The status message shown once the request has settled. */
  function CompletionStatus(o: Outcome): (m: string)
    ensures m != ""
    ensures o.ResponseOk? ==> m == SuccessStatus
    // a rejected response shows its detail or the generic failure, never the transport fallback
    ensures o.ResponseNotOk? ==>
      m == (if o.detail.Some? && o.detail.value != "" then o.detail.value else GenericFailureStatus)
    ensures o.Thrown? ==> m == (if o.message != "" then o.message else UnableStatus)
  {
    match o
    case ResponseOk(_) => SuccessStatus
    case ResponseNotOk(detail) => CaughtMessage(RejectionMessage(detail))
    case Thrown(message) => CaughtMessage(message)
  }

  /**
   * The rest of `onSubmit` once the awaited request settles: the result and the status are
   * set and, in `finally`, the loading flag cleared. After teardown React drops the updates.
   */
  function OnSubmitComplete(s: Snapshot, o: Outcome): (t: Snapshot)
    requires Valid(s) && s.isLoading
    ensures Valid(t)
    ensures !s.mounted ==> t == s
    ensures s.mounted ==>
      && !t.isLoading
      && t.statusMessage == CompletionStatus(o)
      && t.editedImage == (if o.ResponseOk? then o.image else s.editedImage)
      && t == s.(editedImage := t.editedImage, statusMessage := t.statusMessage, isLoading := false)
  {
    if !s.mounted then s
    else
      match o
      case ResponseOk(image) =>
        s.(editedImage := image, statusMessage := CompletionStatus(o), isLoading := false)
      case _ =>
        s.(statusMessage := CompletionStatus(o), isLoading := false)
  }

  /** Teardown: the cleanup registered for the current `previewUrl` releases it. */
  function OnUnmount(s: Snapshot): (t: Snapshot)
    requires Valid(s) && s.mounted
    ensures Valid(t) && !t.mounted && t.urls.live == {}
    ensures t.urls.revocations == s.urls.revocations + (if s.previewUrl.Blob? then [s.previewUrl.id] else [])
    ensures t == s.(mounted := false, urls := t.urls)
  {
    s.(mounted := false, urls := ReleasePreview(s.urls, s.previewUrl))
  }

  /** Everything that can happen to the component. */
  datatype Event =
    | ChooseFiles(files: seq<File>)
    | DropFiles(files: seq<File>)
    | DragOver
    | DragLeave
    | TypePrompt(text: string)
    | Submit
    | Settle(outcome: Outcome)
    | Unmount

  /**
   * One event. User events reach only a mounted component; a submit while loading is
   * impossible (the button is disabled) and a settlement needs a request in flight.
   */
  function Step(s: Snapshot, e: Event): (t: Snapshot)
    requires Valid(s)
    ensures Valid(t)
    ensures e.Unmount? ==> !t.mounted
    // a torn-down component ignores the user; a disabled submit button cannot be pressed
    ensures !s.mounted && !e.Settle? ==> t == s
    ensures e.Submit? && s.isLoading ==> t == s
  {
    if e.Settle? then
      (if s.isLoading then OnSubmitComplete(s, e.outcome) else s)
    else if !s.mounted then s
    else
      match e
      case ChooseFiles(files) => OnFileChange(s, FirstFile(files))
      case DropFiles(files) => OnDrop(s, files)
      case DragOver => OnDragOver(s)
      case DragLeave => OnDragLeave(s)
      case TypePrompt(text) => OnPromptInput(s, text)
      case Submit => if s.isLoading then s else OnSubmitStart(s).0
      case Unmount => OnUnmount(s)
      case Settle(_) => s
  }

  /** A sequence of events, in order. */
  function Run(s: Snapshot, events: seq<Event>): (t: Snapshot)
    requires Valid(s)
    ensures Valid(t)
    decreases |events|
  {
    if events == [] then s else Run(Step(s, events[0]), events[1..])
  }

  /** While mounted, at most one object URL is live and it is the current preview. */
  lemma AtMostOnePreview(s: Snapshot)
    requires Valid(s)
    ensures |s.urls.live| <= 1
    ensures forall h :: h in s.urls.live ==> s.previewUrl == Blob(h) && s.mounted
  {
  }

  /**
   * Whatever happens from the first render on, once the component is torn down no object
   * URL is live and every one it ever created was released exactly once.
   */
  lemma PreviewLifecycle(events: seq<Event>)
    ensures var t := Step(Run(Initial(), events), Unmount);
      t.urls.live == {} && forall h :: 0 <= h < t.urls.next ==> multiset(t.urls.revocations)[h] == 1
  {
    var t := Step(Run(Initial(), events), Unmount);
    forall h | 0 <= h < t.urls.next
      ensures multiset(t.urls.revocations)[h] == 1
    {
      ObjectUrls.ReleasedExactlyOnce(t.urls, h);
    }
  }
}
