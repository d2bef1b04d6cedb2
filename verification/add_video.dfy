/** The form that adds a video to a course: the video and its optional
    thumbnail are uploaded to the media host first, and their addresses are
    then registered with the backend. */
module AddVideo {
  import opened Browser

  /** The text fields of the form. The form's `video` and `thumbnail`
      entries start as null and no handler ever sets them, so they are not
      represented. */
  datatype Form = Form(title: string, videoUrl: string, thumbnailUrl: string)

  datatype Field = Title | VideoUrl | ThumbnailUrl

  datatype Screen = Screen(form: Form, loading: bool, error: string)

  const Initial: Screen := Screen(Form("", "", ""), false, "")

  const VideoUploadError: string := "Ошибка при загрузке видео"
  const ImageUploadError: string := "Ошибка при загрузке изображения"
  const SubmitError: string := "Произошла ошибка при добавлении видео"
  const VideoUploadUrl: string := "https://api.cloudinary.com/v1_1/dq2pbzrtu/video/upload"
  const ImageUploadUrl: string := "https://api.cloudinary.com/v1_1/dq2pbzrtu/image/upload"
  const UploadPreset: string := "adilgazy"

  /** The form field a `Field` names. */
  function FieldValue(form: Form, field: Field): string {
    match field
    case Title => form.title
    case VideoUrl => form.videoUrl
    case ThumbnailUrl => form.thumbnailUrl
  }

  /** `handleInputChange`: the named field takes the typed value; every
      other field, the loading flag and the error stay as they were. */
  function InputChange(s: Screen, field: Field, value: string): (r: Screen)
    ensures FieldValue(r.form, field) == value
    ensures forall g :: g != field ==> FieldValue(r.form, g) == FieldValue(s.form, g)
    ensures r.loading == s.loading && r.error == s.error
  {
    match field
    case Title => s.(form := s.form.(title := value))
    case VideoUrl => s.(form := s.form.(videoUrl := value))
    case ThumbnailUrl => s.(form := s.form.(thumbnailUrl := value))
  }

  /** The upload request for a chosen file: an unauthenticated POST to the
      media host's video or image endpoint, carrying the file and the preset,
      plus the resource type for videos. */
  function UploadRequest(file: File, isVideo: bool): (r: Request)
    ensures r.verb == Post && r.authorization.None?
    ensures r.url == if isVideo then VideoUploadUrl else ImageUploadUrl
    ensures |r.body| >= 2 && r.body[0] == ("file", Attachment(file)) && r.body[1] == ("upload_preset", Text(UploadPreset))
    ensures isVideo <==> |r.body| == 3
    ensures isVideo ==> r.body[2] == ("resource_type", Text("video"))
  {
    if isVideo then
      Request(Post, VideoUploadUrl, None,
              [("file", Attachment(file)), ("upload_preset", Text(UploadPreset)), ("resource_type", Text("video"))])
    else
      Request(Post, ImageUploadUrl, None, [("file", Attachment(file)), ("upload_preset", Text(UploadPreset))])
  }

  /** The two uploads of one file differ only in the endpoint and in the
      extra resource-type field of the video upload. */
  lemma UploadsDifferOnlyInKind(file: File)
    ensures UploadRequest(file, true).(url := ImageUploadUrl, body := UploadRequest(file, true).body[..2])
         == UploadRequest(file, false)
  {
  }

  /** `handleVideoChange` and `handleThumbnailChange`, which differ only in
      the target field, the upload address and the error text. Without a
      chosen file nothing happens. Otherwise the file is uploaded; on success
      only the target field changes, to the returned `secure_url`; on failure
      only the error changes. Loading ends either way. */
  function UploadChange(s: Screen, target: Field, file: Option<File>, response: Outcome<string>): (r: Step<Screen>)
    requires target != Title
    ensures file.None? ==> r == Step(s, [])
    ensures file.Some? ==> r.effects == [Send(UploadRequest(file.value, target == VideoUrl))] && !r.state.loading
    ensures file.Some? && response.Ok? ==>
      FieldValue(r.state.form, target) == response.data &&
      (forall g :: g != target ==> FieldValue(r.state.form, g) == FieldValue(s.form, g)) &&
      r.state.error == s.error
    ensures file.Some? && response.Failed? ==>
      r.state.form == s.form &&
      r.state.error == (if target == VideoUrl then VideoUploadError else ImageUploadError)
  {
    if file.None? then Step(s, [])
    else
      var request := Send(UploadRequest(file.value, target == VideoUrl));
      match response
      case Ok(secureUrl) => Step(InputChange(s, target, secureUrl).(loading := false), [request])
      case Failed(_) =>
        var message := if target == VideoUrl then VideoUploadError else ImageUploadError;
        Step(s.(error := message, loading := false), [request])
  }

  /** `handleVideoChange`: a successful upload sets `video_url` and nothing
      else in the form. */
  function VideoChange(s: Screen, file: Option<File>, response: Outcome<string>): (r: Step<Screen>)
    ensures file.None? ==> r == Step(s, [])
    ensures file.Some? ==> !r.state.loading && r.effects == [Send(UploadRequest(file.value, true))]
    ensures file.Some? && response.Ok? ==> r.state.form == s.form.(videoUrl := response.data) && r.state.error == s.error
    ensures file.Some? && response.Failed? ==> r.state.form == s.form && r.state.error == VideoUploadError
  {
    UploadChange(s, VideoUrl, file, response)
  }

  /** `handleThumbnailChange`: a successful upload sets `thumbnail_url` and
      nothing else in the form. */
  function ThumbnailChange(s: Screen, file: Option<File>, response: Outcome<string>): (r: Step<Screen>)
    ensures file.None? ==> r == Step(s, [])
    ensures file.Some? ==> !r.state.loading && r.effects == [Send(UploadRequest(file.value, false))]
    ensures file.Some? && response.Ok? ==> r.state.form == s.form.(thumbnailUrl := response.data) && r.state.error == s.error
    ensures file.Some? && response.Failed? ==> r.state.form == s.form && r.state.error == ImageUploadError
  {
    UploadChange(s, ThumbnailUrl, file, response)
  }

  /** `disabled={loading || !formData.video_url}` */
  function SubmitEnabled(s: Screen): (r: bool)
    ensures r <==> !(s.loading || !Truthy(Some(s.form.videoUrl)))
  {
    !s.loading && s.form.videoUrl != ""
  }

  /** `handleSubmit`: clears the error, posts exactly the title, the video
      address and the thumbnail address from the form, then opens the course
      page or shows the server's error text or the default. The form itself
      is never changed, and loading ends either way. */
  function Submit(s: Screen, courseId: string, token: Option<string>, response: Outcome<()>): (r: Step<Screen>)
    ensures r.state.form == s.form && !r.state.loading
    ensures |r.effects| >= 1 &&
      r.effects[0] == Send(Authorized(Post, "/api/course/" + courseId + "/video", token,
                                      [("title", Text(s.form.title)),
                                       ("video_url", Text(s.form.videoUrl)),
                                       ("thumbnail_url", Text(s.form.thumbnailUrl))]))
    ensures response.Ok? ==> r.state.error == "" && r.effects[1..] == [Navigate("/course/" + courseId)]
    ensures response.Failed? ==>
      r.state.error == OrElse(response.failure.serverError, SubmitError) && |r.effects| == 1
  {
    var cleared := s.(loading := true, error := "");
    var request := Send(Authorized(Post, "/api/course/" + courseId + "/video", token,
                                   [("title", Text(s.form.title)),
                                    ("video_url", Text(s.form.videoUrl)),
                                    ("thumbnail_url", Text(s.form.thumbnailUrl))]));
    match response
    case Ok(_) => Step(cleared.(loading := false), [request, Navigate("/course/" + courseId)])
    case Failed(f) => Step(cleared.(error := OrElse(f.serverError, SubmitError), loading := false), [request])
  }

  /** Uploading a video that comes back with an address enables the submit
      button; a failed video upload leaves it as it was, except that loading
      is over. */
  lemma VideoUploadEnablesSubmit(s: Screen, file: File, response: Outcome<string>)
    ensures var r := VideoChange(s, Some(file), response).state;
      (response.Ok? ==> (SubmitEnabled(r) <==> response.data != "")) &&
      (response.Failed? ==> (SubmitEnabled(r) <==> s.form.videoUrl != ""))
  {
  }

  /** A thumbnail upload never changes whether the form can be submitted,
      once loading is over. */
  lemma ThumbnailUploadKeepsSubmit(s: Screen, file: File, response: Outcome<string>)
    ensures SubmitEnabled(ThumbnailChange(s, Some(file), response).state) <==> s.form.videoUrl != ""
  {
  }

  /** A freshly opened form cannot be submitted; a successful video upload
      enables it exactly when the returned address is non-empty. */
  lemma InitialFormBlocked(file: File, url: string)
    ensures !SubmitEnabled(Initial)
    ensures SubmitEnabled(VideoChange(Initial, Some(file), Ok(url)).state) <==> url != ""
  {
    VideoUploadEnablesSubmit(Initial, file, Ok(url));
  }
}
