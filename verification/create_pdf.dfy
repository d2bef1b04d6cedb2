/** The form that attaches a PDF document to a course. */
module CreatePdf {
  import opened Browser

  datatype Form = Form(title: string, file: Option<File>, error: string)

  const Initial: Form := Form("", None, "")

  const PdfType: string := "application/pdf"
  const MissingFields: string := "Пожалуйста, заполните все поля"
  const NotPdf: string := "Пожалуйста, выберите PDF файл"
  const UploadError: string := "Произошла ошибка при загрузке PDF"

  /** The title field's `onChange`. */
  function SetTitle(form: Form, title: string): (r: Form)
    ensures r.title == title && r.file == form.file && r.error == form.error
  {
    form.(title := title)
  }

  /** `handleFileChange`: a selected file whose declared type is exactly
      "application/pdf" is kept and the error cleared; anything else (no
      file, another type) drops any file kept before and sets the error. */
  function FileChange(form: Form, selected: Option<File>): (r: Form)
    ensures r.title == form.title
    ensures r.file.Some? <==> selected.Some? && selected.value.mimeType == PdfType
    ensures r.file.Some? ==> r.file == selected && r.error == ""
    ensures r.file.None? ==> r.error == NotPdf
  {
    if selected.Some? && selected.value.mimeType == PdfType then form.(file := selected, error := "")
    else form.(error := NotPdf, file := None)
  }

  /** The button is enabled exactly when `disabled={!title || !file}` is false. */
  function SubmitEnabled(form: Form): (r: bool)
    ensures r <==> !(!Truthy(Some(form.title)) || form.file.None?)
  {
    form.title != "" && form.file.Some?
  }

  /** `handleSubmit`. With an empty title or no file it only sets the error.
      Otherwise it posts a form with exactly the fields "title" and "pdf",
      then opens the course page, or shows the server's error text or the
      default. */
  function Submit(form: Form, courseId: string, token: Option<string>, response: Outcome<()>): (r: Step<Form>)
    ensures !SubmitEnabled(form) ==> r == Step(form.(error := MissingFields), [])
    ensures SubmitEnabled(form) ==>
      |r.effects| >= 1 &&
      r.effects[0] == Send(Authorized(Post, "/course/" + courseId + "/pdf", token,
                                      [("title", Text(form.title)), ("pdf", Attachment(form.file.value))]))
    ensures SubmitEnabled(form) && response.Ok? ==>
      r.state == form && r.effects[1..] == [Navigate("/course/" + courseId)]
    ensures SubmitEnabled(form) && response.Failed? ==>
      r.state == form.(error := OrElse(response.failure.serverError, UploadError)) && |r.effects| == 1
  {
    if form.title == "" || form.file.None? then Step(form.(error := MissingFields), [])
    else
      var request := Send(Authorized(Post, "/course/" + courseId + "/pdf", token,
                                     [("title", Text(form.title)), ("pdf", Attachment(form.file.value))]));
      match response
      case Ok(_) => Step(form, [request, Navigate("/course/" + courseId)])
      case Failed(f) => Step(form.(error := OrElse(f.serverError, UploadError)), [request])
  }

  /** The button and the guard agree: a submit issues a request exactly when
      the button is enabled. */
  lemma ButtonMatchesGuard(form: Form, courseId: string, token: Option<string>, response: Outcome<()>)
    ensures SubmitEnabled(form) <==> !NoRequest(Submit(form, courseId, token, response).effects)
  {
    var r := Submit(form, courseId, token, response);
    if SubmitEnabled(form) {
      assert r.effects[0].Send?;
    }
  }

  /** Choosing anything but a PDF disables the button, even when a PDF had
      been chosen before; choosing a PDF enables it whenever there is a
      title. */
  lemma FileChoiceGatesSubmit(form: Form, selected: Option<File>)
    ensures SubmitEnabled(FileChange(form, selected)) <==>
      form.title != "" && selected.Some? && selected.value.mimeType == PdfType
  {
  }

  /** A freshly opened form has no title and no file: its button is
      disabled, and a submit only shows the missing-fields error. */
  lemma InitialFormBlocked(courseId: string, token: Option<string>, response: Outcome<()>)
    ensures !SubmitEnabled(Initial)
    ensures Submit(Initial, courseId, token, response) == Step(Initial.(error := MissingFields), [])
  {
  }
}
