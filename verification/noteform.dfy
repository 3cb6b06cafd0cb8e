/** The create/edit note form: pre-filling from the cached notes in edit mode, picking an
    image, the submit validation and the choice between the add and update calls, and the
    handling of the call's result. The image preview is display state and is not modelled. */
module NoteForm {
  import opened Wrappers
  import opened Http
  import opened Lookup
  import opened Cache

  /** A file chosen in the file input (its bytes are not modelled). */
  datatype File = File(name: string, mimeType: string)

  /** `noteData`: the form fields. */
  datatype Fields = Fields(title: string, content: string, image: Option<File>)

  datatype Editor = Editor(fields: Fields, loading: bool)

  const Initial := Editor(Fields("", "", None), false)

  /** The effect of the edit-mode initialisation: the new editor, an error toast, a navigation. */
  datatype Prefill = Prefill(editor: Editor, error: Option<string>, navigateTo: Option<string>)

  const NoteNotFound := "Note not found"
  const FillBoth := "Please fill in both title and content."
  const SomethingWrong := "Something went wrong."
  const Updated := "Note updated successfully!"
  const Added := "Note added successfully!"

  /** With a route id, the first cached note with that id fills title and content and clears
      the image; an id missing from the cache gives the "Note not found" error and a move to
      "/". Without a route id nothing happens. A missing title or content is held as "",
      which every later test of the form treats alike (they all test truthiness). */
  function PrefillFromCache(routeId: Option<string>, cache: seq<CachedNote>, ed: Editor): (r: Prefill)
    ensures !Truthy(routeId) ==> r == Prefill(ed, None, None)
    ensures Truthy(routeId) && (forall i :: 0 <= i < |cache| ==> cache[i].id != routeId.value) ==>
              r == Prefill(ed, Some(NoteNotFound), Some("/"))
    ensures Truthy(routeId) && (exists i :: 0 <= i < |cache| && cache[i].id == routeId.value) ==>
              && r.error == None && r.navigateTo == None
              && r.editor.loading == ed.loading
              && r.editor.fields.image == None
              && exists i :: 0 <= i < |cache| && cache[i].id == routeId.value
                             && (forall j :: 0 <= j < i ==> cache[j].id != routeId.value)
                             && r.editor.fields.title == cache[i].title.GetOr("")
                             && r.editor.fields.content == cache[i].content.GetOr("")
  {
    if !Truthy(routeId) then Prefill(ed, None, None)
    else match First(cache, (n: CachedNote) => n.id == routeId.value)
      case None => Prefill(ed, Some(NoteNotFound), Some("/"))
      case Some(i) => Prefill(ed.(fields := Fields(cache[i].title.GetOr(""), cache[i].content.GetOr(""), None)), None, None)
  }

  /** `handleImageChange`: a chosen file becomes the image; title, content and loading stay. */
  function ChooseFile(ed: Editor, picked: Option<File>): (r: Editor)
    ensures picked.None? ==> r == ed
    ensures picked.Some? ==> r.fields.image == picked
    ensures r.fields.title == ed.fields.title && r.fields.content == ed.fields.content
    ensures r.loading == ed.loading
  {
    if picked.None? then ed else ed.(fields := ed.fields.(image := picked))
  }

  /** One entry of the multipart form. */
  datatype Part = TextPart(name: string, text: string) | FilePart(name: string, file: File)

  /** The store call the submit makes. */
  datatype Call = AddNote(form: seq<Part>) | UpdateNote(id: string, form: seq<Part>)

  datatype Submitted = Warned(message: string) | Sent(call: Call, editor: Editor)

  /** The form data: title and content always, the image only when one was chosen. */
  function FormOf(f: Fields): (form: seq<Part>)
    ensures |form| == if f.image.Some? then 3 else 2
    ensures form[0] == TextPart("title", f.title) && form[1] == TextPart("content", f.content)
    ensures f.image.Some? ==> form[2] == FilePart("image", f.image.value)
  {
    [TextPart("title", f.title), TextPart("content", f.content)]
      + (if f.image.Some? then [FilePart("image", f.image.value)] else [])
  }

  /** `handleSubmit`: an empty title or content only warns; otherwise the form is sent to
      `updateNote(id, form)` when a route id is present and to `addNote(form)` otherwise,
      with the editor marked loading. */
  function Submit(ed: Editor, routeId: Option<string>): (r: Submitted)
    ensures ed.fields.title == "" || ed.fields.content == "" ==> r == Warned(FillBoth)
    ensures ed.fields.title != "" && ed.fields.content != "" ==>
              && r.Sent?
              && r.editor == ed.(loading := true)
              && r.call.form == FormOf(ed.fields)
              && (r.call.UpdateNote? <==> Truthy(routeId))
              && (r.call.UpdateNote? ==> r.call.id == routeId.value)
  {
    if ed.fields.title == "" || ed.fields.content == "" then Warned(FillBoth)
    else
      var form := FormOf(ed.fields);
      Sent(if Truthy(routeId) then UpdateNote(routeId.value, form) else AddNote(form), ed.(loading := true))
  }

  /** The submit button's `disabled` attribute. */
  predicate Disabled(ed: Editor) {
    ed.fields.title == "" || ed.fields.content == "" || ed.loading
  }

  /** An enabled button always leads to a request; a warning only ever comes from a disabled one. */
  lemma EnabledSubmitSends(ed: Editor, routeId: Option<string>)
    ensures !Disabled(ed) ==> Submit(ed, routeId).Sent?
    ensures Submit(ed, routeId).Warned? ==> Disabled(ed)
    ensures Submit(ed, routeId).Sent? ==> Disabled(Submit(ed, routeId).editor)
  {
  }

  /** A chosen image travels with the next submit as the third form part; with no file chosen
      the form is unchanged. */
  lemma ChosenFileIsSent(ed: Editor, f: File, routeId: Option<string>)
    requires ed.fields.title != "" && ed.fields.content != ""
    ensures var s := Submit(ChooseFile(ed, Some(f)), routeId);
            s.Sent? && |s.call.form| == 3 && s.call.form[2] == FilePart("image", f)
    ensures Submit(ChooseFile(ed, None), routeId) == Submit(ed, routeId)
  {
  }

  /** In edit mode the pre-filled form of a cached note is submitted as an update of that
      very note, carrying its cached title and content, and no image unless one is chosen. */
  lemma PrefilledEditSubmitsUpdate(id: string, cache: seq<CachedNote>, i: nat)
    requires id != "" && i < |cache| && cache[i].id == id
    requires forall j :: 0 <= j < i ==> cache[j].id != id
    requires Truthy(cache[i].title) && Truthy(cache[i].content)
    ensures var ed := PrefillFromCache(Some(id), cache, Initial).editor;
            Submit(ed, Some(id))
              == Sent(UpdateNote(id, [TextPart("title", cache[i].title.value), TextPart("content", cache[i].content.value)]),
                      ed.(loading := true))
  {
    FirstUnique(cache, (n: CachedNote) => n.id == id, Some(i));
  }

  /** What the store call hands back: its JSON reply (or nothing), or a thrown error. */
  datatype ApiResult = ApiResult(success: bool, message: Option<string>)
  datatype CallResult = Returned(value: Option<ApiResult>) | Threw

  datatype Toast = SuccessToast(text: string) | ErrorToast(text: string)
  datatype Finished = Finished(editor: Editor, toast: Toast, navigateTo: Option<string>)

  /** After the call: loading ends; success shows the add or update message and returns to
      "/"; anything else shows the reply's message, or a generic one when it has none. */
  function Finish(ed: Editor, result: CallResult, routeId: Option<string>): (r: Finished)
    ensures !r.editor.loading && r.editor.fields == ed.fields
    ensures r.navigateTo.Some? <==> result.Returned? && result.value.Some? && result.value.value.success
    ensures r.navigateTo.Some? ==>
              r.navigateTo == Some("/") && r.toast == SuccessToast(if Truthy(routeId) then Updated else Added)
    ensures r.navigateTo.None? ==> r.toast.ErrorToast?
    ensures result.Returned? && result.value.Some? && !result.value.value.success
            && Truthy(result.value.value.message) ==>
              r.toast == ErrorToast(result.value.value.message.value)
    ensures r.navigateTo.None? && !(result.Returned? && result.value.Some? && Truthy(result.value.value.message)) ==>
              r.toast == ErrorToast(SomethingWrong)
  {
    var done := ed.(loading := false);
    match result
    case Threw => Finished(done, ErrorToast(SomethingWrong), None)
    case Returned(v) =>
      if v.Some? && v.value.success then
        Finished(done, SuccessToast(if Truthy(routeId) then Updated else Added), Some("/"))
      else if v.Some? && Truthy(v.value.message) then
        Finished(done, ErrorToast(v.value.message.value), None)
      else
        Finished(done, ErrorToast(SomethingWrong), None)
  }
}
